# AdipoQ Preparator: a verified model of its processing core

AdipoQ Preparator is an ImageJ plug-in. It turns microscopy images of adipose tissue into binary masks of the fat-cell cavities. This project models its main class, `AdipoQPreparatorMain`, in Dafny and proves properties of the model.

The model covers four parts of the class:

- **Pixel loops over hyperstacks** (`hyperstack.dfy`, `stack_ops.dfy`, `planes.dfy`). A hyperstack is a class with a 3-dimensional voxel array, addressed by ImageJ's clamped channel/slice/frame stack index. The loops modelled are:
  - channel extraction;
  - threshold segmentation, with its polarity and keep-intensities flags;
  - zeroing outside a region;
  - the above-zero region with its (0,0) correction;
  - the mask clean-up on a duplicate;
  - AND of two images;
  - the two-channel output with its slice labels.

  The loops are `method`s proved against plane functions.
- **The cavity pipeline of `run`** (`cavity.dfy`), as functions on one plane. The steps are segmentation, optional masking outside the above-zero region, optional despeckle, then (M inverted) AND R, where R is M with holes filled and noise removed, then optional hole filling. The above-zero region stays the image's selection from line 506 on, so Despeckle and Invert act only inside it. The ImageJ filters are uninterpreted functions that keep the dimensions and binarity of their input.
- **Task bookkeeping** (`tasks.dfy`):
  - the series screen that splices a multi-series file into one task per series, both as the plug-in's loop and as a function;
  - the checks that reject a task;
  - the output file prefix.
- **The settings log** (`settings_log.dfy`, `settings_import.dfy`, `text.dfy`, `preferences.dfy`). The writer `addSettingsBlockToPanel` is a function returning the list of lines. The reader `importSettings` appears twice:
  - as a function `ReadFrom` over the lines;
  - as the class `Preparator`, whose `ImportSettings` loop updates the preference fields in place and is proved equal to that function.

  The main result is a round trip: writer, then corrected reader. Beside it are lemmas that the reader as written fails on custom-threshold logs and never clears hole filling.

Decimal numbers in the log are written by a formatter and read by a parser. Both are parameters of the model (`Formatter`, `Parser`), so the round trip holds for every formatter and parser where each written number reads back as itself. Integers are written as `Integer.toString` writes them and read as `Integer.parseInt` reads ASCII text: an optional sign and decimal digits whose value fits in 32 bits.

Three defects of the plug-in are modelled by a `fixed: bool` parameter:
- the sizing of the series splice (`Tasks.ExpandTask`);
- the custom-threshold line of the reader (`SettingsLog.ReadFrom`);
- the flags the reader clears (`SettingsLog.Cleared`).

`fixed == false` is the code as written, and `fixed == true` is the evident intent (see Findings).

## Model

| member | source | states |
|---|---|---|
| Hyperstacks.Hyperstack.constructor | src/main/java/adipoQ_preparator_jnh/AdipoQPreparatorMain.java:950 | `IJ.createHyperStack`: a stack with the given width, height, channels, slices, frames and bit depth, every voxel 0 and every label null |
| Hyperstacks.Hyperstack.Index | src/main/java/adipoQ_preparator_jnh/AdipoQPreparatorMain.java:957-958 | `getStackIndex(c, z, t) - 1` is a plane of the stack whatever its arguments, since ImageJ clamps each one into range |
| Hyperstacks.Hyperstack.IndexOfPlane | src/main/java/adipoQ_preparator_jnh/AdipoQPreparatorMain.java:957-958 | every plane is the plane of the channel, slice and frame it decodes to, and those are in range |
| Hyperstacks.Hyperstack.PlaneOfIndex | src/main/java/adipoQ_preparator_jnh/AdipoQPreparatorMain.java:957-958 | decoding the plane of an in-range (channel, slice, frame) gives back those three numbers |
| Hyperstacks.Hyperstack.IndexInjective | src/main/java/adipoQ_preparator_jnh/AdipoQPreparatorMain.java:957-959 | distinct in-range (channel, slice, frame) triples address distinct planes, so the pixel loops never write one voxel twice |
| Hyperstacks.Hyperstack.SamePlaneClamped | src/main/java/adipoQ_preparator_jnh/AdipoQPreparatorMain.java:957 | a channel number out of range addresses the planes of the nearest channel |
| Hyperstacks.Hyperstack.ChannelPlanesDistinct | src/main/java/adipoQ_preparator_jnh/AdipoQPreparatorMain.java:957-959 | within one channel, distinct slices or frames address distinct planes |
| Hyperstacks.Hyperstack.Duplicate | src/main/java/adipoQ_preparator_jnh/AdipoQPreparatorMain.java:776 | `duplicate()`: new arrays with the same dimensions, voxels and labels |
| StackOps.CopyChannel | src/main/java/adipoQ_preparator_jnh/AdipoQPreparatorMain.java:949-968 | a new one-channel stack with the source's width, height, slices, frames and bit depth; every voxel equals the source voxel of the chosen channel at the same position; the source is not modified |
| StackOps.SegmentImage | src/main/java/adipoQ_preparator_jnh/AdipoQPreparatorMain.java:985-1012 | plane z becomes the segmentation of plane zTemp's old intensities: 0 where the intensity is below the threshold (dark background) or above it (bright background), otherwise 2^bitDepth - 1, or the old value when intensities are kept; no other plane changes |
| Planes.SegmentValueMeaning | src/main/java/adipoQ_preparator_jnh/AdipoQPreparatorMain.java:988-1010 | without keepIntensities a pixel becomes 0 or max, and becomes 0 exactly when the polarity test holds; with keepIntensities it becomes 0 or keeps its value, and keeps it exactly when the test fails |
| Cavity.SegmentPlaneMeaning | src/main/java/adipoQ_preparator_jnh/AdipoQPreparatorMain.java:522-528 | `run` segments with a bright background, so the mask is binary and is background exactly where the intensity exceeds the threshold |
| StackOps.SetRegionsOutsideRoiToZero | src/main/java/adipoQ_preparator_jnh/AdipoQPreparatorMain.java:754-770 | in every slice and frame of the channel, voxels outside the region become 0 and voxels inside keep their value; voxels of the other channels do not change |
| StackOps.GetRegionsAboveZeroAsRoi | src/main/java/adipoQ_preparator_jnh/AdipoQPreparatorMain.java:700-748 | the result is the selection of the closed, binarised channel, corrected at (0,0) (`Cavity.AboveZeroRoi`) |
| Planes.AboveZero | src/main/java/adipoQ_preparator_jnh/AdipoQPreparatorMain.java:711-715 | the binarised voxel is 0 or 255, and it is 255 exactly when the source voxel is above 0 |
| Planes.BoundaryCorrectedMeaning | src/main/java/adipoQ_preparator_jnh/AdipoQPreparatorMain.java:729-740 | after the correction the region holds (0,0) exactly when the closed image is nonzero at (0,0); the region is the selection or its complement |
| Cavity.AboveZeroRoiOrigin | src/main/java/adipoQ_preparator_jnh/AdipoQPreparatorMain.java:724-740 | a region exists exactly when Create Selection finds one, and it holds (0,0) exactly when the closed binary image, not the source channel, is 255 at (0,0) |
| Cavity.ClosedAboveZero | src/main/java/adipoQ_preparator_jnh/AdipoQPreparatorMain.java:705-725 | the closed binarised channel keeps the channel's shape and is binary at 255 |
| StackOps.GetFillHolesAndRemoveNoise | src/main/java/adipoQ_preparator_jnh/AdipoQPreparatorMain.java:775-783 | a new stack, so the mask passed in is not modified; its plane is Fill Holes, then Minimum, then Maximum of the mask |
| Cavity.FillHolesAndRemoveNoiseBinary | src/main/java/adipoQ_preparator_jnh/AdipoQPreparatorMain.java:775-783 | R, the cleaned-up copy of a binary mask, is binary |
| Planes.InvertBinary | src/main/java/adipoQ_preparator_jnh/AdipoQPreparatorMain.java:563-564 | Invert swaps foreground and background of a binary plane |
| Planes.InvertInvolution | src/main/java/adipoQ_preparator_jnh/AdipoQPreparatorMain.java:563-564 | inverting twice gives back any plane whose values do not exceed max |
| Planes.BitAndBinary | src/main/java/adipoQ_preparator_jnh/AdipoQPreparatorMain.java:568-569 | on binary values, AND is foreground exactly where both operands are foreground |
| StackOps.AndCreate | src/main/java/adipoQ_preparator_jnh/AdipoQPreparatorMain.java:568-569 | `AND create` makes a new single-plane image holding the bitwise AND of its two operands |
| Cavity.CavityMaskMeaning | src/main/java/adipoQ_preparator_jnh/AdipoQPreparatorMain.java:558-569 | for any binary M and selection, the mask before hole filling, (M inverted inside the selection) AND R, is binary and is foreground exactly where R is foreground and M is background inside the selection or foreground outside it |
| Planes.MaskedMeaning | src/main/java/adipoQ_preparator_jnh/AdipoQPreparatorMain.java:506-564 | Invert and Despeckle run while the above-zero region is selected: without a selection the filter result is taken everywhere, with one the plane keeps its values outside it, and binary planes stay binary |
| Cavity.DespeckledMaskMeaning | src/main/java/adipoQ_preparator_jnh/AdipoQPreparatorMain.java:551-554 | M after Despeckle, which acts only inside the selection set at 506, is binary and still background everywhere outside the selection |
| Cavity.PipelineCavityMeaning | src/main/java/adipoQ_preparator_jnh/AdipoQPreparatorMain.java:499-569 | the mask `run` computes before hole filling is foreground exactly where R is foreground, M is background and the pixel lies inside the selection (everywhere when zero regions are not excluded) |
| Cavity.SegmentedMaskMeaning | src/main/java/adipoQ_preparator_jnh/AdipoQPreparatorMain.java:499-549 | the mask M is binary and has the channel's shape; when zero regions are excluded for an auto-threshold method, M is background outside the above-zero region |
| Cavity.CustomIgnoresZeroRegions | src/main/java/adipoQ_preparator_jnh/AdipoQPreparatorMain.java:500-549 | with the custom threshold, the zero-region settings play no part: no selection is set and M is the plain segmentation at the custom threshold |
| Cavity.FinalMaskShape | src/main/java/adipoQ_preparator_jnh/AdipoQPreparatorMain.java:498-589 | the final mask is binary and has the channel's shape |
| Cavity.FinalMaskFails | src/main/java/adipoQ_preparator_jnh/AdipoQPreparatorMain.java:500-506 | the pipeline fails exactly when the above-zero region is needed and Create Selection found no region (`roi.contains` on null) |
| StackOps.BuildDuplicateChannelOutput | src/main/java/adipoQ_preparator_jnh/AdipoQPreparatorMain.java:592-647 | a new 2-channel stack with the source's dimensions: channel 1 holds the final mask, channel 2 the source voxels of `channelID`; channel 2's planes are labelled and channel 1's are not |
| StackOps.LabelDuplicateChannel | src/main/java/adipoQ_preparator_jnh/AdipoQPreparatorMain.java:627-647 | every plane of channel 2 gets the output label of the matching source plane, and channel 1's labels stay null |
| StackOps.OutputLabelMeaning | src/main/java/adipoQ_preparator_jnh/AdipoQPreparatorMain.java:631-645 | a label is "segm " followed by the source label, or by "Channel c Ss/n Tf/m" when the source label is null or empty |
| StackOps.DefaultSliceLabel | src/main/java/adipoQ_preparator_jnh/AdipoQPreparatorMain.java:633-634 | the description of an unlabelled plane starts with "Channel " and is longer than it |
| StackOps.DefaultSliceLabelInjective | src/main/java/adipoQ_preparator_jnh/AdipoQPreparatorMain.java:633-634 | the description names its plane: equal descriptions come from the same channel, 1-based slice and frame, and slice and frame counts |
| StackOps.UnlabelledOutputLabelsDistinct | src/main/java/adipoQ_preparator_jnh/AdipoQPreparatorMain.java:631-645 | two unlabelled planes of the channel that differ in slice or frame get different output labels |
| Tasks.InitialTasks | src/main/java/adipoQ_preparator_jnh/AdipoQPreparatorMain.java:240-241 | before the screen, each file is one task for series 0 of 1 |
| Tasks.ScreenSeries | src/main/java/adipoQ_preparator_jnh/AdipoQPreparatorMain.java:244-355 | the screening loop, visiting tasks from the last to the first, ends in the state `ExpandAll` gives, or fails where `ExpandAll` does |
| Tasks.ScreenTask | src/main/java/adipoQ_preparator_jnh/AdipoQPreparatorMain.java:247-347 | one pass of the screen replaces task i by its expansion and leaves the tasks before and after it as they were |
| Tasks.SpliceSeries | src/main/java/adipoQ_preparator_jnh/AdipoQPreparatorMain.java:260-346 | a file that is split is replaced by one task per series for "ALL", and otherwise by the tasks of the listed series followed by null entries up to one per list item |
| Tasks.Splice | src/main/java/adipoQ_preparator_jnh/AdipoQPreparatorMain.java:261-297 | the copy through temp arrays is the tasks before i, then the new entries, then the unwritten null entries, then the tasks after i |
| Tasks.SelectSeries | src/main/java/adipoQ_preparator_jnh/AdipoQPreparatorMain.java:314-323 | the series loop collects exactly `ListedTasks` |
| Tasks.ExpandTaskMeaning | src/main/java/adipoQ_preparator_jnh/AdipoQPreparatorMain.java:247-353 | expansion fails exactly on a name without a dot, or on a Bio-Formats exception without a cause; as written every task becomes at least one entry; every entry names the task's file, or is null (only for a list of series) |
| Tasks.ExpandTaskAllSeries | src/main/java/adipoQ_preparator_jnh/AdipoQPreparatorMain.java:259-298 | under "ALL", a file with n > 1 series becomes n entries with series 0..n-1 and totSeries n; a single-series file stays one entry |
| Tasks.ExpandTaskListLength | src/main/java/adipoQ_preparator_jnh/AdipoQPreparatorMain.java:300-344 | as written, a list of series always gives one entry per list item, however many of them exist |
| Tasks.ListedTasksElements | src/main/java/adipoQ_preparator_jnh/AdipoQPreparatorMain.java:314-323 | every listed entry is a series of the file that the list selects |
| Tasks.ListedTasksOrdered | src/main/java/adipoQ_preparator_jnh/AdipoQPreparatorMain.java:314-323 | listed entries are in increasing series order |
| Tasks.ListedTasksComplete | src/main/java/adipoQ_preparator_jnh/AdipoQPreparatorMain.java:314-323 | every selected series of the file is listed |
| Tasks.ListedTasksBound | src/main/java/adipoQ_preparator_jnh/AdipoQPreparatorMain.java:301 | a list of n items selects at most n series, so the splice never overruns the room it allocates |
| Tasks.ExpandAllCrashes | src/main/java/adipoQ_preparator_jnh/AdipoQPreparatorMain.java:349-352 | a task whose expansion fails makes the whole screen fail |
| Tasks.ExpandAllLength | src/main/java/adipoQ_preparator_jnh/AdipoQPreparatorMain.java:244-355 | as written, the screen never shortens the task list |
| Tasks.UnmatchedSeriesLeavesNull | src/main/java/adipoQ_preparator_jnh/AdipoQPreparatorMain.java:301-323 | as written, "1,3" on a file with two series gives series 1 followed by a null entry |
| Tasks.FixedExpansionHasNames | src/main/java/adipoQ_preparator_jnh/AdipoQPreparatorMain.java:314-323 | with the splice sized to the series found, every entry after the screen names a file |
| Tasks.CheckTaskMeaning | src/main/java/adipoQ_preparator_jnh/AdipoQPreparatorMain.java:392-464 | a task is processed exactly when its name is not a .txt or .zip file, it opens, it has 1 frame and 1 slice, and 1 <= channelID <= nChannels; a null name fails; every rejection message starts with "Task i/n: " |
| Tasks.CheckTaskFramesFirst | src/main/java/adipoQ_preparator_jnh/AdipoQPreparatorMain.java:449-458 | the multi-frame check comes first, so a 3D time series is reported as multi-frame |
| Tasks.BaseName | src/main/java/adipoQ_preparator_jnh/AdipoQPreparatorMain.java:470-474 | the name up to its last dot, or the whole name when it has no dot |
| Tasks.FilePrefixStarts | src/main/java/adipoQ_preparator_jnh/AdipoQPreparatorMain.java:469-486 | the prefix starts with the directory followed by the base name |
| Tasks.FilePrefixEnds | src/main/java/adipoQ_preparator_jnh/AdipoQPreparatorMain.java:479-484 | the prefix ends with "_AQP", or with "_AQP_" and the date in the date variant |
| Tasks.FilePrefixSeriesDistinct | src/main/java/adipoQ_preparator_jnh/AdipoQPreparatorMain.java:475-477 | different series of one multi-series file get different prefixes |
| Tasks.FilePrefixIgnoresExtension | src/main/java/adipoQ_preparator_jnh/AdipoQPreparatorMain.java:470-471 | the extension does not enter the prefix |
| Text.LastIndexOf | src/main/java/adipoQ_preparator_jnh/AdipoQPreparatorMain.java:823 | `lastIndexOf`: -1 exactly when the character is absent, otherwise the position of its last occurrence |
| Text.AfterLastTabOf | src/main/java/adipoQ_preparator_jnh/AdipoQPreparatorMain.java:823 | the value of a line is the text after its last tab |
| Text.NormalizeDecimal | src/main/java/adipoQ_preparator_jnh/AdipoQPreparatorMain.java:824 | when the text holds a comma and no dot, every comma becomes a dot and every other character is kept, so no comma is left; otherwise the text is unchanged |
| Text.NormalizeDecimalIdempotent | src/main/java/adipoQ_preparator_jnh/AdipoQPreparatorMain.java:824 | the separator repair leaves repaired text alone |
| Text.ParseIntOfIntToString | src/main/java/adipoQ_preparator_jnh/AdipoQPreparatorMain.java:825 | `Integer.parseInt` of a printed Java `int` gives back that `int` |
| Text.ParseInt | src/main/java/adipoQ_preparator_jnh/AdipoQPreparatorMain.java:825 | a parsed channel number is a 32-bit `int` |
| Text.ParseIntMeaning | src/main/java/adipoQ_preparator_jnh/AdipoQPreparatorMain.java:825 | `Integer.parseInt` accepts a string exactly when it is an optional sign followed by one or more digits whose value, negated after a minus, fits in 32 bits, and returns that value |
| SettingsLog.SettingsBlock | src/main/java/adipoQ_preparator_jnh/AdipoQPreparatorMain.java:1014-1053 | the block has twelve lines, always in the same positions: the channel line is line 3, the segmentation line (custom or auto-threshold) line 6, the radius line line 10, and the block ends with an empty line |
| SettingsLog.ChannelLineReads | src/main/java/adipoQ_preparator_jnh/AdipoQPreparatorMain.java:822-827 | the channel line the writer emits (1024) sets exactly the channel number |
| SettingsLog.DuplicateLineReads | src/main/java/adipoQ_preparator_jnh/AdipoQPreparatorMain.java:828-831 | the duplicate-channel line (1027) sets its flag, and the empty line of an unset flag changes nothing |
| SettingsLog.ExcludeLineReads | src/main/java/adipoQ_preparator_jnh/AdipoQPreparatorMain.java:832-838 | the zero-region line (1031) sets its flag and the gap radius read back |
| SettingsLog.AlgorithmLineReads | src/main/java/adipoQ_preparator_jnh/AdipoQPreparatorMain.java:840-860 | the segmentation line of an auto-threshold method (1038) sets exactly that method, although the names of several methods occur inside other names |
| SettingsLog.FirstAlgorithmFrom | src/main/java/adipoQ_preparator_jnh/AdipoQPreparatorMain.java:853-858 | the search loop returns the method at index k when the line holds its name and no name before it |
| SettingsLog.FirstAlgorithm | src/main/java/adipoQ_preparator_jnh/AdipoQPreparatorMain.java:853-858 | a method found is one of the dialog's methods and occurs in the line |
| SettingsImport.FindAlgorithm | src/main/java/adipoQ_preparator_jnh/AdipoQPreparatorMain.java:853-858 | the search loop with its `break` returns the first method whose name occurs in the line |
| SettingsLog.CustomValueLineReads | src/main/java/adipoQ_preparator_jnh/AdipoQPreparatorMain.java:848-851 | the custom value line (1036) holds its marker, its value is the written number, and the tests after the segmentation test change nothing on it |
| SettingsLog.DespeckleLineReads | src/main/java/adipoQ_preparator_jnh/AdipoQPreparatorMain.java:869-872 | the despeckle line (1043) sets its flag; an empty line changes nothing |
| SettingsLog.FillHolesLineReads | src/main/java/adipoQ_preparator_jnh/AdipoQPreparatorMain.java:873-876 | the hole-filling line (1047) sets its flag; an empty line changes nothing |
| SettingsLog.RadiusLineReads | src/main/java/adipoQ_preparator_jnh/AdipoQPreparatorMain.java:863-868 | the radius line (1050) sets the noise radius read back |
| SettingsLog.UnmarkedLineReads | src/main/java/adipoQ_preparator_jnh/AdipoQPreparatorMain.java:812-877 | a line holding no marker changes nothing |
| SettingsLog.ReadErrors | src/main/java/adipoQ_preparator_jnh/AdipoQPreparatorMain.java:822-847 | an unparsable channel number throws; as written a custom segmentation line throws; corrected, a missing threshold-value line returns false and a missing next line throws |
| SettingsLog.BlockReads | src/main/java/adipoQ_preparator_jnh/AdipoQPreparatorMain.java:803-887 | reading a log that starts with the block written for some preferences gives the written channel, method and read-back numbers; flags are OR-ed into the start state; numbers not written keep their start values |
| SettingsLog.RoundTrip | src/main/java/adipoQ_preparator_jnh/AdipoQPreparatorMain.java:803-887 | with the two fixes, loading the block written for any preferences gives those preferences back, except the two numbers the block does not write |
| SettingsLog.LoadTwice | src/main/java/adipoQ_preparator_jnh/AdipoQPreparatorMain.java:803-887 | with the two fixes, loading the same log a second time changes nothing |
| SettingsLog.CustomLogCrashes | src/main/java/adipoQ_preparator_jnh/AdipoQPreparatorMain.java:841-842 | as written, any log of a custom threshold makes the reader throw at `algorithm[18]` |
| SettingsLog.FillHolesNotCleared | src/main/java/adipoQ_preparator_jnh/AdipoQPreparatorMain.java:803-805 | as written, a log written without hole filling, loaded into the initial preferences, leaves hole filling on |
| SettingsImport.Preparator.constructor | src/main/java/adipoQ_preparator_jnh/AdipoQPreparatorMain.java:83-94 | the preference fields start at the plug-in's initial values |
| SettingsImport.Preparator.ReadHeadOf | src/main/java/adipoQ_preparator_jnh/AdipoQPreparatorMain.java:822-838 | the channel, duplicate and zero-region tests update the fields as `ReadHead` specifies, or report the failed parse |
| SettingsImport.Preparator.ReadTailOf | src/main/java/adipoQ_preparator_jnh/AdipoQPreparatorMain.java:863-876 | the radius, despeckle and hole-filling tests update the fields as `ReadTail` specifies, or report the failed parse |
| SettingsImport.Preparator.ReadCustomAt | src/main/java/adipoQ_preparator_jnh/AdipoQPreparatorMain.java:841-851 | the corrected handling of a custom segmentation line, which also consumes the next line, agrees with `ReadFrom` |
| SettingsImport.Preparator.ImportSettings | src/main/java/adipoQ_preparator_jnh/AdipoQPreparatorMain.java:803-887 | the loop over the lines returns the outcome `ReadSettings` specifies from the fields' old values, and a successful load leaves those preferences in the fields |

## Left out

- User interface: dialogs, the files dialog with its polling, the progress dialog and the `continueProcessing` flag set from another thread (112-191, 359-370, 892-934). The settings variant is a parameter: the reader is given the lines of the chosen file (788-798 is file-dialog code).
- File and format I/O: `IJ.openImage`, Bio-Formats, `saveAsTiff`, `RoiEncoder` and `TextPanel.saveAs`. The opening of a file for the series screen is a parameter, `open: string -> Opening`, which returns a series count or an exception with or without a cause. Task checks take the opened image's dimensions, or None when opening throws.
- ImageJ library algorithms: the auto-threshold methods (974-983), Maximum/Minimum, Despeckle, Fill Holes and Create Selection are fields of the `Library` datatype. The only facts used about them are that they keep dimensions and binarity (`WellBehaved`).
- The pipeline is modelled on one plane. `run` only processes images with one slice and one frame, and the channel copy has one channel, so the filters act on plane 0 only (`StackOps.ApplyFilter`).
- The task loop of `run` (387-700) is not modelled as one method. Its checks (`Tasks.CheckTask`), file prefix (`Tasks.FilePrefix`), pipeline (`Cavity.FinalMask`) and output (`StackOps.BuildDuplicateChannelOutput`) are modelled separately, and their sequencing is not.
- Image types: voxels are unbounded naturals for 8- and 16-bit images. 24-bit RGB and 32-bit float images are not modelled, and neither is `setVoxel`'s clamping of out-of-range values (every value the plug-in writes is in range).
- LUTs, calibration, display mode, overlay and `System.gc` (613-623, 649-651). The log lines the task loop appends after the settings block are not modelled: the empty line (495), the threshold lines (523, 541), the output channel lines (620, 625-626) and the footer `addFooter` appends at 669 (937-943), which holds the date and the plug-in version. The round-trip lemmas require later log lines to hold no marker (`Unmarked`).
- Date formatting: the start date is a string parameter. `DecimalFormat` (`df6`, `dfDialog`) and `Double.parseDouble` are the `Formatter` and `Parser` parameters. `df0` on an int is modelled as `Integer.toString`.
- The reference comparison `chosenAlgorithm == "CUSTOM threshold"` (1034) is modelled as string equality. The chosen method is always one of the interned literals of `algorithm`.
- The task variants that take the current image or all open images (434-440) are not modelled; only the file-list variant with its series screen is.
- Text.ParseInt: only the ASCII digits '0' to '9' are digits. `Integer.parseInt` also accepts other Unicode decimal digits, which the channel line of a log written by the plug-in never holds.
- The copy `getFillHolesAndRemoveNoise` makes with `duplicate()` (776) is taken to hold the whole plane with no selection, so R is computed on the whole of M. `ImagePlus.duplicate` is not part of this model.
- StackOps.SegmentImage: it requires plane z and plane zTemp to exist and the intensity image to be at least as large as the image written. `run` always passes the same image for both.
- SettingsLog.RoundTrip: it requires the later log lines to hold no marker and every written decimal to read back as itself. What the reader does with other lines is given by `ReadFrom`, but only the error paths of `ReadErrors` are stated about them.

## Findings

| source | as written | input that shows it | evidently intended | confidence | as-written member | corrected member |
|---|---|---|---|---|---|---|
| src/main/java/adipoQ_preparator_jnh/AdipoQPreparatorMain.java:301-323 | a list of series sizes the splice by the number of list items, and series that the file lacks leave null entries, which the task loop dereferences at 392 | a file with 2 series and the series list "1,3" | size the splice by the series actually found | not executed | Tasks.UnmatchedSeriesLeavesNull | Tasks.FixedExpansionHasNames |
| src/main/java/adipoQ_preparator_jnh/AdipoQPreparatorMain.java:842 | a custom-threshold segmentation line reads `algorithm[18]` of the 18-entry array (88-90), which throws, so no custom-threshold log can be loaded | the block the writer emits for `chosenAlgorithm == "CUSTOM threshold"` | `algorithm[17]`, the custom threshold | not executed | SettingsLog.CustomLogCrashes | SettingsLog.RoundTrip |
| src/main/java/adipoQ_preparator_jnh/AdipoQPreparatorMain.java:803-805 | the reader clears three of the flags it sets but not `fillHoles`, so it can never switch hole filling off | a log written with hole filling off, read into the initial preferences | clear `fillHoles` with the other flags | not executed | SettingsLog.FillHolesNotCleared | SettingsLog.RoundTrip |
