/** The settings block that `addSettingsBlockToPanel` writes at the top of
    every task's metadata log, and `importSettings`, which loads the
    preferences back from such a log, line by line, through `contains`
    tests on marker texts. */
module SettingsLog {
  import opened Wrappers
  import opened Text
  import opened Preferences

  // The marker texts the reader looks for. Long texts are built from short
  // pieces, so that facts about their characters stay cheap to check.

  const ChannelMarker: string := "Channel Nr:"
  const DuplicateMarker: string := Duplicate1 + Duplicate2 + Duplicate3 + Duplicate4
  const ExcludeMarker: string := Exclude1 + Exclude2 + Exclude3 + Exclude4
  const SegmentationMarker: string := "Segmentation method:"
  const ApplyingMarker: string := Applying1 + Applying2
  const CustomValueMarker: string := "Custom threshold value:"
  const RadiusMarker: string := Radius1 + Radius2 + Radius3 + Radius4
  const DespeckleMarker: string := "Despeckle mask"
  const FillHolesMarker: string := "Fill holes in mask"

  const Duplicate1: string := "Channel duplicated to"
  const Duplicate2: string := " include a copy of"
  const Duplicate3: string := " the channel that is"
  const Duplicate4: string := " not processed"
  const Exclude1: string := "Excluded zero intensity"
  const Exclude2: string := " pixels in threshold"
  const Exclude3: string := " calculation - radius"
  const Exclude4: string := " of tolerated gaps (px):"
  const Applying1: string := "applying intensity"
  const Applying2: string := " threshold based "
  const Radius1: string := "Radius of particles to"
  const Radius2: string := " be removed as noise"
  const Radius3: string := " while detecting adipose"
  const Radius4: string := " tissue regions (px)"

  /** A settings line "\t<name>\t<value>". */
  function Field(name: string, value: string): string
  {
    "\t" + name + "\t" + value
  }

  /** A settings line "\t<text>" that is present only when a flag is set. */
  function Flag(text: string): string
  {
    "\t" + text
  }

  const DateLabel: string := "Starting date:"
  const NameLabel: string := "Image name:"
  const SeriesLabel: string := "series:"
  const PreparationLabel: string := "Preparation settings:"

  function DateLine(startDate: string): string
  {
    DateLabel + "\t" + startDate
  }

  function NameLine(name: string, multiSeries: bool, series: int): string
  {
    if multiSeries then NameLabel + "\t" + name + "\t" + SeriesLabel + "\t" + IntToString(series + 1)
    else NameLabel + "\t" + name
  }

  const PreparationLine: string := PreparationLabel + "\t"

  const AlgorithmOn: string := "on the "
  const AlgorithmTail: string := "threshold algorithm."

  /** "applying intensity threshold based on the <alg> threshold algorithm." */
  function AlgorithmText(alg: string): string
  {
    ApplyingMarker + (AlgorithmOn + alg + " " + AlgorithmTail)
  }

  /** The decimal numbers of the log are written by `df6` (six decimals,
      with the chosen locale's separator) and read by `parseDouble`
      (None when it throws); both are parameters of this model. */
  type Formatter = real -> string
  type Parser = string -> Option<real>

  /** `addSettingsBlockToPanel`: the twelve lines of the settings block.
      Lines of unset flags are empty, so the block has a fixed shape. */
  function SettingsBlock(startDate: string, name: string, multiSeries: bool, series: int, st: Settings, df6: Formatter): (r: seq<string>)
    ensures |r| == 12
    ensures r[3] == Field(ChannelMarker, IntToString(st.channelID))
    ensures r[6] == Field(SegmentationMarker, if IsCustom(st) then Custom else AlgorithmText(st.chosenAlgorithm))
    ensures r[10] == Field(RadiusMarker + ":", df6(st.removeRadius))
    ensures r[11] == ""
  {
    [ DateLine(startDate),
      NameLine(name, multiSeries, series),
      PreparationLine,
      Field(ChannelMarker, IntToString(st.channelID)),
      if st.includeDuplicateChannel then Flag(DuplicateMarker + ".") else "",
      if st.excludeZeroRegions then Field(ExcludeMarker, df6(st.closeGapsRadius)) else "",
      Field(SegmentationMarker, if IsCustom(st) then Custom else AlgorithmText(st.chosenAlgorithm)),
      if IsCustom(st) then Field("\t" + CustomValueMarker, df6(st.customThr)) else "",
      if st.despeckle then Flag(DespeckleMarker) else "",
      if st.fillHoles then Flag(FillHolesMarker) else "",
      Field(RadiusMarker + ":", df6(st.removeRadius)),
      "" ]
  }

  // ---------------------------------------------------------------------
  // The reader
  // ---------------------------------------------------------------------

  /** Loaded: `importSettings` returns true with these preferences;
      NotLoaded: it returns false; Crashed: it throws. */
  datatype ReadOutcome = Loaded(st: Settings) | NotLoaded | Crashed

  /** The value of a line: the text after its last tab, with commas turned
      into dots when it holds no dot. */
  function ValueText(line: string): string
  {
    NormalizeDecimal(AfterLastTab(line))
  }

  /** "Channel Nr:": `Integer.parseInt` of the value, which throws on a
      value that is not an int. */
  function ReadChannel(line: string, st: Settings): Option<Settings>
  {
    if !Contains(line, ChannelMarker) then Some(st)
    else match ParseInt(ValueText(line))
      case None => None
      case Some(n) => Some(st.(channelID := n))
  }

  function ReadDuplicate(line: string, st: Settings): Settings
  {
    if Contains(line, DuplicateMarker) then st.(includeDuplicateChannel := true) else st
  }

  function ReadExclude(line: string, st: Settings, parseDouble: Parser): Option<Settings>
  {
    if !Contains(line, ExcludeMarker) then Some(st)
    else match parseDouble(ValueText(line))
      case None => None
      case Some(v) => Some(st.(excludeZeroRegions := true, closeGapsRadius := v))
  }

  /** The tests that come before the segmentation test. */
  function ReadHead(line: string, st: Settings, parseDouble: Parser): Option<Settings>
  {
    match ReadChannel(line, st)
    case None => None
    case Some(s1) => ReadExclude(line, ReadDuplicate(line, s1), parseDouble)
  }

  /** The search loop over `algorithm`: the first method, from index a on,
      whose name occurs in the line. */
  function FirstAlgorithm(line: string, a: nat): (r: Option<string>)
    ensures r.Some? ==> r.value in Algorithms && Contains(line, r.value)
    decreases |Algorithms| - a
  {
    if a >= |Algorithms| then None
    else if Contains(line, Algorithms[a]) then Some(Algorithms[a])
    else FirstAlgorithm(line, a + 1)
  }

  /** A segmentation line that names an auto-threshold method. */
  function ReadAlgorithm(line: string, st: Settings): Settings
  {
    if Contains(line, SegmentationMarker) && Contains(line, ApplyingMarker) then
      match FirstAlgorithm(line, 0)
      case None => st
      case Some(x) => st.(chosenAlgorithm := x)
    else st
  }

  /** The tests that come after the segmentation test. */
  function ReadTail(line: string, st: Settings, parseDouble: Parser): Option<Settings>
  {
    var radius :=
      if !Contains(line, RadiusMarker) then Some(st)
      else match parseDouble(ValueText(line))
        case None => None
        case Some(v) => Some(st.(removeRadius := v));
    match radius
    case None => None
    case Some(s1) =>
      var s2 := if Contains(line, DespeckleMarker) then s1.(despeckle := true) else s1;
      Some(if Contains(line, FillHolesMarker) then s2.(fillHoles := true) else s2)
  }

  /** A segmentation line of the user-supplied threshold; the reader then
      consumes the next line too. */
  predicate IsCustomLine(line: string)
  {
    Contains(line, SegmentationMarker) && Contains(line, Custom)
  }

  /** All tests on a line that is not a custom segmentation line. */
  function ReadLine(line: string, st: Settings, parseDouble: Parser): Option<Settings>
  {
    match ReadHead(line, st, parseDouble)
    case None => None
    case Some(s1) => ReadTail(line, ReadAlgorithm(line, s1), parseDouble)
  }

  /** The custom threshold read from the line after a custom segmentation
      line: NotLoaded when that line lacks its marker, Crashed when it does
      not exist (`readLine` returns null and `contains` throws) or its value
      does not parse. */
  function ReadCustomValue(lines: seq<string>, i: nat, st: Settings, parseDouble: Parser): (r: ReadOutcome)
    requires i < |lines|
  {
    if i + 1 == |lines| then Crashed
    else if !Contains(lines[i + 1], CustomValueMarker) then NotLoaded
    else match parseDouble(ValueText(lines[i + 1]))
      case None => Crashed
      case Some(v) => Loaded(st.(chosenAlgorithm := Custom, customThr := v))
  }

  /** The reading loop from line i on. When `fixed` is unset, a custom
      segmentation line crashes, as `algorithm[18]` is out of the array's
      bounds; when it is set, the custom threshold is loaded. After a
      custom segmentation line, the tests after the segmentation test run
      on the line that holds the threshold. */
  function ReadFrom(lines: seq<string>, i: nat, st: Settings, parseDouble: Parser, fixed: bool): ReadOutcome
    requires i <= |lines|
    decreases |lines| - i
  {
    if i == |lines| then Loaded(st)
    else if !IsCustomLine(lines[i]) then
      match ReadLine(lines[i], st, parseDouble)
      case None => Crashed
      case Some(s1) => ReadFrom(lines, i + 1, s1, parseDouble, fixed)
    else match ReadHead(lines[i], st, parseDouble)
      case None => Crashed
      case Some(s1) =>
        if !fixed then Crashed
        else match ReadCustomValue(lines, i, s1, parseDouble)
          case NotLoaded => NotLoaded
          case Crashed => Crashed
          case Loaded(s2) =>
            match ReadTail(lines[i + 1], s2, parseDouble)
            case None => Crashed
            case Some(s3) => ReadFrom(lines, i + 2, s3, parseDouble, fixed)
  }

  /** How the reading loop fails at line i: a channel number that does not
      parse throws; on a custom segmentation line the reader as written
      throws, and the corrected one returns NotLoaded when the next line
      lacks the threshold marker and throws when there is no next line. */
  lemma ReadErrors(lines: seq<string>, i: nat, st: Settings, parseDouble: Parser, fixed: bool)
    requires i < |lines|
    ensures ReadChannel(lines[i], st).None? ==> ReadFrom(lines, i, st, parseDouble, fixed) == Crashed
    ensures IsCustomLine(lines[i]) && ReadHead(lines[i], st, parseDouble).Some? && (!fixed || i + 1 == |lines|) ==>
      ReadFrom(lines, i, st, parseDouble, fixed) == Crashed
    ensures (IsCustomLine(lines[i]) && ReadHead(lines[i], st, parseDouble).Some? && fixed && i + 1 < |lines| &&
      !Contains(lines[i + 1], CustomValueMarker)) ==> ReadFrom(lines, i, st, parseDouble, fixed) == NotLoaded
  {
  }

  /** The flags `importSettings` clears before it reads; `fillHoles` is
      cleared only when `fixed` is set. */
  function Cleared(st: Settings, fixed: bool): Settings
  {
    st.(excludeZeroRegions := false, includeDuplicateChannel := false, despeckle := false,
      fillHoles := if fixed then false else st.fillHoles)
  }

  /** `importSettings` on the lines of a log, starting from preferences st. */
  function ReadSettings(lines: seq<string>, st: Settings, parseDouble: Parser, fixed: bool): ReadOutcome
  {
    ReadFrom(lines, 0, Cleared(st, fixed), parseDouble, fixed)
  }

  // ---------------------------------------------------------------------
  // Which markers a line holds
  // ---------------------------------------------------------------------

  /** s holds none of the markers the reader tests every line for. */
  predicate Unmarked(s: string)
  {
    !Contains(s, ChannelMarker) && !Contains(s, DuplicateMarker) && !Contains(s, ExcludeMarker) &&
    !Contains(s, SegmentationMarker) && !Contains(s, RadiusMarker) && !Contains(s, DespeckleMarker) &&
    !Contains(s, FillHolesMarker)
  }

  /** The character classes of the marker texts. */
  lemma ChannelMarkerPlain()
    ensures Plain(ChannelMarker, "CN:") && |ChannelMarker| == 11
    ensures 'C' in ChannelMarker && 'N' in ChannelMarker
  {
  }

  lemma Duplicate1Plain()
    ensures Plain(Duplicate1, "C.")
  {
  }

  lemma Duplicate2Plain()
    ensures Plain(Duplicate2, "C.")
  {
  }

  lemma Duplicate3Plain()
    ensures Plain(Duplicate3, "C.")
  {
  }

  lemma Duplicate4Plain()
    ensures Plain(Duplicate4, "C.")
  {
  }

  lemma DuplicateMarkerPlain()
    ensures Plain(DuplicateMarker + ".", "C.") && |DuplicateMarker| == 73 && 'C' in DuplicateMarker
  {
    Duplicate1Plain();
    Duplicate2Plain();
    Duplicate3Plain();
    Duplicate4Plain();
    PlainConcat(Duplicate1, Duplicate2, "C.");
    PlainConcat(Duplicate1 + Duplicate2, Duplicate3, "C.");
    PlainConcat(Duplicate1 + Duplicate2 + Duplicate3, Duplicate4, "C.");
    PlainConcat(DuplicateMarker, ".", "C.");
    assert DuplicateMarker[0] == 'C';
  }

  lemma Exclude1Plain()
    ensures Plain(Exclude1, "E-():")
  {
  }

  lemma Exclude2Plain()
    ensures Plain(Exclude2, "E-():")
  {
  }

  lemma Exclude3Plain()
    ensures Plain(Exclude3, "E-():")
  {
  }

  lemma Exclude4Plain()
    ensures Plain(Exclude4, "E-():")
  {
  }

  lemma ExcludeMarkerPlain()
    ensures Plain(ExcludeMarker, "E-():") && |ExcludeMarker| == 88 && 'E' in ExcludeMarker
  {
    Exclude1Plain();
    Exclude2Plain();
    Exclude3Plain();
    Exclude4Plain();
    PlainConcat(Exclude1, Exclude2, "E-():");
    PlainConcat(Exclude1 + Exclude2, Exclude3, "E-():");
    PlainConcat(Exclude1 + Exclude2 + Exclude3, Exclude4, "E-():");
    assert ExcludeMarker[0] == 'E';
  }

  lemma SegmentationMarkerPlain()
    ensures Plain(SegmentationMarker, "S:") && |SegmentationMarker| == 20
    ensures 'S' in SegmentationMarker && ':' in SegmentationMarker
  {
  }

  lemma Radius1Plain()
    ensures Plain(Radius1, "R():")
  {
  }

  lemma Radius2Plain()
    ensures Plain(Radius2, "R():")
  {
  }

  lemma Radius3Plain()
    ensures Plain(Radius3, "R():")
  {
  }

  lemma Radius4Plain()
    ensures Plain(Radius4, "R():")
  {
  }

  lemma RadiusMarkerPlain()
    ensures Plain(RadiusMarker + ":", "R():") && |RadiusMarker| == 86 && 'R' in RadiusMarker
  {
    Radius1Plain();
    Radius2Plain();
    Radius3Plain();
    Radius4Plain();
    PlainConcat(Radius1, Radius2, "R():");
    PlainConcat(Radius1 + Radius2, Radius3, "R():");
    PlainConcat(Radius1 + Radius2 + Radius3, Radius4, "R():");
    PlainConcat(RadiusMarker, ":", "R():");
    assert RadiusMarker[0] == 'R';
  }

  lemma DespeckleMarkerPlain()
    ensures Plain(DespeckleMarker, "D") && |DespeckleMarker| == 14
    ensures 'D' in DespeckleMarker && 'k' in DespeckleMarker
  {
  }

  lemma FillHolesMarkerPlain()
    ensures Plain(FillHolesMarker, "F") && |FillHolesMarker| == 18 && 'F' in FillHolesMarker
  {
  }

  lemma CustomPlain()
    ensures Plain(Custom, "CUSTOM") && |Custom| == 16 && 'U' in Custom
  {
  }

  lemma CustomValueMarkerPlain()
    ensures Plain(CustomValueMarker, "C:") && |CustomValueMarker| == 23
  {
  }

  /** The characters that tell each marker apart from the others. */
  lemma ChannelMarkerChars()
    ensures 'C' in ChannelMarker && 'N' in ChannelMarker && |ChannelMarker| == 11
    ensures '\t' !in ChannelMarker
  {
    ChannelMarkerPlain();
    PlainLacks(ChannelMarker, "CN:", '\t');
  }

  lemma DuplicateMarkerChars()
    ensures 'C' in DuplicateMarker && |DuplicateMarker| == 73
    ensures '\t' !in (DuplicateMarker + ".") && 'N' !in (DuplicateMarker + ".") && 'E' !in (DuplicateMarker + ".") && 'S' !in (DuplicateMarker + ".") && 'R' !in (DuplicateMarker + ".") && 'D' !in (DuplicateMarker + ".") && 'F' !in (DuplicateMarker + ".")
  {
    DuplicateMarkerPlain();
    PlainLacks((DuplicateMarker + "."), "C.", '\t');
    PlainLacks((DuplicateMarker + "."), "C.", 'N');
    PlainLacks((DuplicateMarker + "."), "C.", 'E');
    PlainLacks((DuplicateMarker + "."), "C.", 'S');
    PlainLacks((DuplicateMarker + "."), "C.", 'R');
    PlainLacks((DuplicateMarker + "."), "C.", 'D');
    PlainLacks((DuplicateMarker + "."), "C.", 'F');
  }

  lemma ExcludeMarkerChars()
    ensures 'E' in ExcludeMarker && |ExcludeMarker| == 88
    ensures '\t' !in ExcludeMarker && 'C' !in ExcludeMarker && 'S' !in ExcludeMarker && 'R' !in ExcludeMarker && 'D' !in ExcludeMarker && 'F' !in ExcludeMarker
  {
    ExcludeMarkerPlain();
    PlainLacks(ExcludeMarker, "E-():", '\t');
    PlainLacks(ExcludeMarker, "E-():", 'C');
    PlainLacks(ExcludeMarker, "E-():", 'S');
    PlainLacks(ExcludeMarker, "E-():", 'R');
    PlainLacks(ExcludeMarker, "E-():", 'D');
    PlainLacks(ExcludeMarker, "E-():", 'F');
  }

  lemma SegmentationMarkerChars()
    ensures 'S' in SegmentationMarker && ':' in SegmentationMarker && |SegmentationMarker| == 20
    ensures '\t' !in SegmentationMarker && 'C' !in SegmentationMarker && 'E' !in SegmentationMarker && 'D' !in SegmentationMarker && 'F' !in SegmentationMarker && 'U' !in SegmentationMarker && 'N' !in SegmentationMarker
  {
    SegmentationMarkerPlain();
    PlainLacks(SegmentationMarker, "S:", '\t');
    PlainLacks(SegmentationMarker, "S:", 'C');
    PlainLacks(SegmentationMarker, "S:", 'E');
    PlainLacks(SegmentationMarker, "S:", 'D');
    PlainLacks(SegmentationMarker, "S:", 'F');
    PlainLacks(SegmentationMarker, "S:", 'U');
    PlainLacks(SegmentationMarker, "S:", 'N');
  }

  lemma RadiusMarkerChars()
    ensures 'R' in RadiusMarker && |RadiusMarker| == 86
    ensures '\t' !in (RadiusMarker + ":") && 'C' !in (RadiusMarker + ":") && 'S' !in (RadiusMarker + ":") && 'D' !in (RadiusMarker + ":") && 'F' !in (RadiusMarker + ":")
  {
    RadiusMarkerPlain();
    PlainLacks((RadiusMarker + ":"), "R():", '\t');
    PlainLacks((RadiusMarker + ":"), "R():", 'C');
    PlainLacks((RadiusMarker + ":"), "R():", 'S');
    PlainLacks((RadiusMarker + ":"), "R():", 'D');
    PlainLacks((RadiusMarker + ":"), "R():", 'F');
  }

  lemma DespeckleMarkerChars()
    ensures 'D' in DespeckleMarker && 'k' in DespeckleMarker && |DespeckleMarker| == 14
    ensures '\t' !in DespeckleMarker && 'C' !in DespeckleMarker
  {
    DespeckleMarkerPlain();
    PlainLacks(DespeckleMarker, "D", '\t');
    PlainLacks(DespeckleMarker, "D", 'C');
  }

  lemma FillHolesMarkerChars()
    ensures 'F' in FillHolesMarker && |FillHolesMarker| == 18
    ensures '\t' !in FillHolesMarker && 'C' !in FillHolesMarker && 'D' !in FillHolesMarker
  {
    FillHolesMarkerPlain();
    PlainLacks(FillHolesMarker, "F", '\t');
    PlainLacks(FillHolesMarker, "F", 'C');
    PlainLacks(FillHolesMarker, "F", 'D');
  }

  lemma CustomChars()
    ensures 'U' in Custom && |Custom| == 16
    ensures '\t' !in Custom && 'N' !in Custom && 'D' !in Custom
  {
    CustomPlain();
    PlainLacks(Custom, "CUSTOM", '\t');
    PlainLacks(Custom, "CUSTOM", 'N');
    PlainLacks(Custom, "CUSTOM", 'D');
  }

  lemma CustomValueMarkerChars()
    ensures |CustomValueMarker| == 23
    ensures '\t' !in CustomValueMarker && 'D' !in CustomValueMarker && 'F' !in CustomValueMarker
  {
    CustomValueMarkerPlain();
    PlainLacks(CustomValueMarker, "C:", '\t');
    PlainLacks(CustomValueMarker, "C:", 'D');
    PlainLacks(CustomValueMarker, "C:", 'F');
  }

  lemma MarkerChars()
    ensures 'C' in ChannelMarker && 'N' in ChannelMarker && '\t' !in ChannelMarker && |ChannelMarker| == 11
    ensures 'C' in DuplicateMarker && |DuplicateMarker| == 73
    ensures '\t' !in (DuplicateMarker + ".") && 'N' !in (DuplicateMarker + ".") && 'E' !in (DuplicateMarker + ".")
    ensures 'S' !in (DuplicateMarker + ".") && 'R' !in (DuplicateMarker + ".") && 'D' !in (DuplicateMarker + ".")
    ensures 'F' !in (DuplicateMarker + ".")
    ensures 'E' in ExcludeMarker && |ExcludeMarker| == 88
    ensures '\t' !in ExcludeMarker && 'C' !in ExcludeMarker && 'S' !in ExcludeMarker && 'R' !in ExcludeMarker
    ensures 'D' !in ExcludeMarker && 'F' !in ExcludeMarker
    ensures 'S' in SegmentationMarker && ':' in SegmentationMarker && |SegmentationMarker| == 20
    ensures '\t' !in SegmentationMarker && 'C' !in SegmentationMarker && 'E' !in SegmentationMarker
    ensures 'D' !in SegmentationMarker && 'F' !in SegmentationMarker && 'U' !in SegmentationMarker
    ensures 'N' !in SegmentationMarker
    ensures 'R' in RadiusMarker && |RadiusMarker| == 86
    ensures '\t' !in (RadiusMarker + ":") && 'C' !in (RadiusMarker + ":") && 'S' !in (RadiusMarker + ":")
    ensures 'D' !in (RadiusMarker + ":") && 'F' !in (RadiusMarker + ":")
    ensures 'D' in DespeckleMarker && 'k' in DespeckleMarker && |DespeckleMarker| == 14
    ensures '\t' !in DespeckleMarker && 'C' !in DespeckleMarker
    ensures 'F' in FillHolesMarker && |FillHolesMarker| == 18
    ensures '\t' !in FillHolesMarker && 'C' !in FillHolesMarker && 'D' !in FillHolesMarker
    ensures 'U' in Custom && |Custom| == 16 && '\t' !in Custom && 'N' !in Custom && 'D' !in Custom
    ensures |CustomValueMarker| == 23 && '\t' !in CustomValueMarker && 'D' !in CustomValueMarker
    ensures 'F' !in CustomValueMarker
  {
    ChannelMarkerChars();
    DuplicateMarkerChars();
    ExcludeMarkerChars();
    SegmentationMarkerChars();
    RadiusMarkerChars();
    DespeckleMarkerChars();
    FillHolesMarkerChars();
    CustomChars();
    CustomValueMarkerChars();
  }

  /** A text lacking the capitals C, E, S, R, D and F holds no marker. */
  lemma {:induction false} UnmarkedByCapitals(s: string)
    requires 'C' !in s && 'E' !in s && 'R' !in s && 'D' !in s && 'F' !in s
    requires 'S' !in s || |s| < |SegmentationMarker|
    ensures Unmarked(s)
  {
    MarkerChars();
    LacksCharNotContains(s, ChannelMarker, 'C');
    LacksCharNotContains(s, DuplicateMarker, 'C');
    LacksCharNotContains(s, ExcludeMarker, 'E');
    if 'S' !in s {
      LacksCharNotContains(s, SegmentationMarker, 'S');
    }
    LacksCharNotContains(s, RadiusMarker, 'R');
    LacksCharNotContains(s, DespeckleMarker, 'D');
    LacksCharNotContains(s, FillHolesMarker, 'F');
  }

  lemma {:induction false} UnmarkedPlain(s: string, cs: string)
    requires Plain(s, cs) && 'C' !in cs && 'E' !in cs && 'R' !in cs && 'D' !in cs && 'F' !in cs
    requires 'S' !in cs || |s| < |SegmentationMarker|
    ensures Unmarked(s)
  {
    PlainLacks(s, cs, 'C');
    PlainLacks(s, cs, 'E');
    PlainLacks(s, cs, 'R');
    PlainLacks(s, cs, 'D');
    PlainLacks(s, cs, 'F');
    if 'S' !in cs {
      PlainLacks(s, cs, 'S');
    }
    UnmarkedByCapitals(s);
  }

  /** A number holds no marker. */
  lemma {:induction false} NumericUnmarked(s: string)
    requires Numeric(s)
    ensures Unmarked(s)
  {
    NumericLacks(s, 'C');
    NumericLacks(s, 'E');
    NumericLacks(s, 'R');
    NumericLacks(s, 'D');
    NumericLacks(s, 'F');
    NumericLacks(s, 'S');
    UnmarkedByCapitals(s);
  }

  /** Tab-separated texts without markers form a line without markers. */
  lemma {:induction false} JoinUnmarked(a: string, b: string)
    requires Unmarked(a) && Unmarked(b)
    ensures Unmarked(a + "\t" + b)
  {
    MarkerChars();
    assert a + "\t" + b == a + ['\t'] + b;
    NotContainsAcross(a, '\t', b, ChannelMarker);
    NotContainsAcross(a, '\t', b, DuplicateMarker);
    NotContainsAcross(a, '\t', b, ExcludeMarker);
    NotContainsAcross(a, '\t', b, SegmentationMarker);
    NotContainsAcross(a, '\t', b, RadiusMarker);
    NotContainsAcross(a, '\t', b, DespeckleMarker);
    NotContainsAcross(a, '\t', b, FillHolesMarker);
  }

  /** The labels of the first three lines hold no marker. */
  lemma DateLabelUnmarked()
    ensures Unmarked(DateLabel)
  {
    assert Plain(DateLabel, "S:");
    UnmarkedPlain(DateLabel, "S:");
  }

  lemma NameLabelUnmarked()
    ensures Unmarked(NameLabel)
  {
    assert Plain(NameLabel, "I:");
    UnmarkedPlain(NameLabel, "I:");
  }

  lemma SeriesLabelUnmarked()
    ensures Unmarked(SeriesLabel)
  {
    assert Plain(SeriesLabel, ":");
    UnmarkedPlain(SeriesLabel, ":");
  }

  lemma PreparationLabelUnmarked()
    ensures Unmarked(PreparationLabel) && Unmarked("")
  {
    assert Plain(PreparationLabel, "P:");
    UnmarkedPlain(PreparationLabel, "P:");
    UnmarkedByCapitals("");
  }

  /** The first three lines of the block hold no marker, as long as the
      date and the image name hold none. */
  lemma {:induction false} DateLineUnmarked(startDate: string)
    requires Unmarked(startDate)
    ensures Unmarked(DateLine(startDate))
  {
    DateLabelUnmarked();
    JoinUnmarked(DateLabel, startDate);
  }

  lemma {:induction false} NameLineUnmarked(name: string, multiSeries: bool, series: int)
    requires Unmarked(name)
    ensures Unmarked(NameLine(name, multiSeries, series))
  {
    NameLabelUnmarked();
    var head := NameLabel + "\t" + name;
    JoinUnmarked(NameLabel, name);
    if multiSeries {
      SeriesLabelUnmarked();
      IntToStringNumeric(series + 1);
      NumericUnmarked(IntToString(series + 1));
      JoinUnmarked(head, SeriesLabel);
      JoinUnmarked(head + "\t" + SeriesLabel, IntToString(series + 1));
    }
  }

  lemma PreparationLineUnmarked()
    ensures Unmarked(PreparationLine)
  {
    PreparationLabelUnmarked();
    JoinUnmarked(PreparationLabel, "");
    assert PreparationLine == PreparationLabel + "\t" + "";
  }

  // ---------------------------------------------------------------------
  // Fields and flags
  // ---------------------------------------------------------------------

  /** A text without tabs occurs in a field only inside its name or value. */
  lemma {:induction false} FieldLacks(name: string, value: string, w: string)
    requires '\t' !in w && |w| > 0 && !Contains(name, w) && !Contains(value, w)
    ensures !Contains(Field(name, value), w)
  {
    assert !Contains("", w);
    NotContainsAcross("", '\t', name, w);
    assert "" + ['\t'] + name == "\t" + name;
    NotContainsAcross("\t" + name, '\t', value, w);
    assert Field(name, value) == "\t" + name + ['\t'] + value;
  }

  lemma {:induction false} FieldHoldsName(name: string, value: string)
    ensures Contains(Field(name, value), name)
  {
    ContainsInfix("\t", name, "\t" + value);
    assert Field(name, value) == "\t" + name + ("\t" + value);
  }

  lemma {:induction false} FieldHoldsPrefix(w: string, post: string, value: string)
    ensures Contains(Field(w + post, value), w)
  {
    ContainsInfix("\t", w, post + "\t" + value);
    assert Field(w + post, value) == "\t" + w + (post + "\t" + value);
  }

  lemma {:induction false} FieldHoldsSuffix(pre: string, w: string, value: string)
    ensures Contains(Field(pre + w, value), w)
  {
    ContainsInfix("\t" + pre, w, "\t" + value);
    assert Field(pre + w, value) == "\t" + pre + w + ("\t" + value);
  }

  /** The reader finds the value after the field's last tab. */
  lemma {:induction false} FieldValue(name: string, value: string)
    requires '\t' !in value
    ensures AfterLastTab(Field(name, value)) == value
  {
    AfterLastTabOf("\t" + name, value);
  }

  lemma {:induction false} FlagLacks(text: string, w: string)
    requires '\t' !in w && |w| > 0 && !Contains(text, w)
    ensures !Contains(Flag(text), w)
  {
    assert !Contains("", w);
    NotContainsAcross("", '\t', text, w);
    assert Flag(text) == "" + ['\t'] + text;
  }

  lemma {:induction false} FlagHolds(w: string, rest: string)
    ensures Contains(Flag(w + rest), w)
  {
    ContainsInfix("\t", w, rest);
    assert Flag(w + rest) == "\t" + w + rest;
  }

  // ---------------------------------------------------------------------
  // Reading each line of the block
  // ---------------------------------------------------------------------

  /** A decimal the reader reads back: `df6` writes it with the characters
      of a number, and `parseDouble` accepts it after the separator repair. */
  predicate Readable(df6: Formatter, parseDouble: Parser, v: real)
  {
    Numeric(df6(v)) && parseDouble(NormalizeDecimal(df6(v))).Some?
  }

  /** The value the reader gets back for a decimal written by `df6`. */
  function ReadBack(df6: Formatter, parseDouble: Parser, v: real): real
    requires Readable(df6, parseDouble, v)
  {
    parseDouble(NormalizeDecimal(df6(v))).value
  }

  /** A line without markers changes nothing. */
  lemma {:induction false} UnmarkedLineReads(line: string, st: Settings, parseDouble: Parser)
    requires Unmarked(line)
    ensures !IsCustomLine(line) && ReadLine(line, st, parseDouble) == Some(st)
  {
  }

  lemma EmptyLineReads(st: Settings, parseDouble: Parser)
    ensures !IsCustomLine("") && ReadLine("", st, parseDouble) == Some(st)
  {
    PreparationLabelUnmarked();
    UnmarkedLineReads("", st, parseDouble);
  }

  /** The channel line holds only its own marker. */
  lemma {:induction false} ChannelLineMarkers(v: string)
    requires Numeric(v)
    ensures Contains(Field(ChannelMarker, v), ChannelMarker) && AfterLastTab(Field(ChannelMarker, v)) == v
    ensures !Contains(Field(ChannelMarker, v), DuplicateMarker) && !Contains(Field(ChannelMarker, v), ExcludeMarker)
    ensures !Contains(Field(ChannelMarker, v), SegmentationMarker) && !Contains(Field(ChannelMarker, v), RadiusMarker)
    ensures !Contains(Field(ChannelMarker, v), DespeckleMarker) && !Contains(Field(ChannelMarker, v), FillHolesMarker)
  {
    NumericUnmarked(v);
    NumericLacks(v, '\t');
    MarkerChars();
    FieldHoldsName(ChannelMarker, v);
    FieldValue(ChannelMarker, v);
    FieldLacks(ChannelMarker, v, DuplicateMarker);
    FieldLacks(ChannelMarker, v, ExcludeMarker);
    FieldLacks(ChannelMarker, v, SegmentationMarker);
    FieldLacks(ChannelMarker, v, RadiusMarker);
    FieldLacks(ChannelMarker, v, DespeckleMarker);
    FieldLacks(ChannelMarker, v, FillHolesMarker);
  }

  /** The channel line sets the channel number. */
  lemma {:induction false} ChannelLineReads(n: int, st: Settings, parseDouble: Parser)
    requires IntMin <= n <= IntMax
    ensures !IsCustomLine(Field(ChannelMarker, IntToString(n)))
    ensures ReadLine(Field(ChannelMarker, IntToString(n)), st, parseDouble) == Some(st.(channelID := n))
  {
    IntToStringNumeric(n);
    ChannelLineMarkers(IntToString(n));
    ParseIntOfIntToString(n);
  }

  lemma {:induction false} DuplicateLineMarkers()
    ensures Contains(Flag(DuplicateMarker + "."), DuplicateMarker)
    ensures !Contains(Flag(DuplicateMarker + "."), ChannelMarker) && !Contains(Flag(DuplicateMarker + "."), ExcludeMarker)
    ensures !Contains(Flag(DuplicateMarker + "."), SegmentationMarker) && !Contains(Flag(DuplicateMarker + "."), RadiusMarker)
    ensures !Contains(Flag(DuplicateMarker + "."), DespeckleMarker) && !Contains(Flag(DuplicateMarker + "."), FillHolesMarker)
  {
    var text := DuplicateMarker + ".";
    MarkerChars();
    FlagHolds(DuplicateMarker, ".");
    LacksCharNotContains(text, ChannelMarker, 'N');
    FlagLacks(text, ChannelMarker);
    LacksCharNotContains(text, ExcludeMarker, 'E');
    FlagLacks(text, ExcludeMarker);
    LacksCharNotContains(text, SegmentationMarker, 'S');
    FlagLacks(text, SegmentationMarker);
    LacksCharNotContains(text, RadiusMarker, 'R');
    FlagLacks(text, RadiusMarker);
    LacksCharNotContains(text, DespeckleMarker, 'D');
    FlagLacks(text, DespeckleMarker);
    LacksCharNotContains(text, FillHolesMarker, 'F');
    FlagLacks(text, FillHolesMarker);
  }

  /** The duplicate-channel line sets its flag, and the empty line left for
      an unset flag changes nothing. */
  lemma {:induction false} DuplicateLineReads(b: bool, st: Settings, parseDouble: Parser)
    ensures !IsCustomLine(if b then Flag(DuplicateMarker + ".") else "")
    ensures ReadLine(if b then Flag(DuplicateMarker + ".") else "", st, parseDouble) ==
      Some(if b then st.(includeDuplicateChannel := true) else st)
  {
    if b {
      DuplicateLineMarkers();
    } else {
      EmptyLineReads(st, parseDouble);
    }
  }

  lemma {:induction false} ExcludeLineMarkers(v: string)
    requires Numeric(v)
    ensures Contains(Field(ExcludeMarker, v), ExcludeMarker) && AfterLastTab(Field(ExcludeMarker, v)) == v
    ensures !Contains(Field(ExcludeMarker, v), ChannelMarker) && !Contains(Field(ExcludeMarker, v), DuplicateMarker)
    ensures !Contains(Field(ExcludeMarker, v), SegmentationMarker) && !Contains(Field(ExcludeMarker, v), RadiusMarker)
    ensures !Contains(Field(ExcludeMarker, v), DespeckleMarker) && !Contains(Field(ExcludeMarker, v), FillHolesMarker)
  {
    NumericUnmarked(v);
    NumericLacks(v, '\t');
    MarkerChars();
    FieldHoldsName(ExcludeMarker, v);
    FieldValue(ExcludeMarker, v);
    LacksCharNotContains(ExcludeMarker, ChannelMarker, 'C');
    FieldLacks(ExcludeMarker, v, ChannelMarker);
    LacksCharNotContains(ExcludeMarker, DuplicateMarker, 'C');
    FieldLacks(ExcludeMarker, v, DuplicateMarker);
    LacksCharNotContains(ExcludeMarker, SegmentationMarker, 'S');
    FieldLacks(ExcludeMarker, v, SegmentationMarker);
    LacksCharNotContains(ExcludeMarker, RadiusMarker, 'R');
    FieldLacks(ExcludeMarker, v, RadiusMarker);
    LacksCharNotContains(ExcludeMarker, DespeckleMarker, 'D');
    FieldLacks(ExcludeMarker, v, DespeckleMarker);
    LacksCharNotContains(ExcludeMarker, FillHolesMarker, 'F');
    FieldLacks(ExcludeMarker, v, FillHolesMarker);
  }

  /** The zero-region line sets its flag and the gap radius read back. */
  lemma {:induction false} ExcludeLineReads(b: bool, g: real, st: Settings, df6: Formatter, parseDouble: Parser)
    requires b ==> Readable(df6, parseDouble, g)
    ensures !IsCustomLine(if b then Field(ExcludeMarker, df6(g)) else "")
    ensures ReadLine(if b then Field(ExcludeMarker, df6(g)) else "", st, parseDouble) ==
      Some(if b then st.(excludeZeroRegions := true, closeGapsRadius := ReadBack(df6, parseDouble, g)) else st)
  {
    if b {
      ExcludeLineMarkers(df6(g));
    } else {
      EmptyLineReads(st, parseDouble);
    }
  }

  /** The segmentation line of a custom threshold is a custom line whose
      earlier tests change nothing. */
  lemma {:induction false} CustomLineReads(st: Settings, parseDouble: Parser)
    ensures IsCustomLine(Field(SegmentationMarker, Custom))
    ensures ReadHead(Field(SegmentationMarker, Custom), st, parseDouble) == Some(st)
  {
    MarkerChars();
    FieldHoldsName(SegmentationMarker, Custom);
    ContainsInfix("\t" + SegmentationMarker + "\t", Custom, "");
    assert Field(SegmentationMarker, Custom) == "\t" + SegmentationMarker + "\t" + Custom + "";
    LacksCharNotContains(SegmentationMarker, ChannelMarker, 'C');
    LacksCharNotContains(Custom, ChannelMarker, 'N');
    FieldLacks(SegmentationMarker, Custom, ChannelMarker);
    LacksCharNotContains(SegmentationMarker, DuplicateMarker, 'C');
    FieldLacks(SegmentationMarker, Custom, DuplicateMarker);
    LacksCharNotContains(SegmentationMarker, ExcludeMarker, 'E');
    FieldLacks(SegmentationMarker, Custom, ExcludeMarker);
  }

  /** The line after it holds the custom value and no marker of the tests
      after the segmentation test. */
  lemma {:induction false} CustomValueLineMarkers(v: string)
    requires Numeric(v)
    ensures Contains(Field("\t" + CustomValueMarker, v), CustomValueMarker)
    ensures AfterLastTab(Field("\t" + CustomValueMarker, v)) == v
    ensures !Contains(Field("\t" + CustomValueMarker, v), RadiusMarker)
    ensures !Contains(Field("\t" + CustomValueMarker, v), DespeckleMarker)
    ensures !Contains(Field("\t" + CustomValueMarker, v), FillHolesMarker)
  {
    var name := "\t" + CustomValueMarker;
    NumericUnmarked(v);
    NumericLacks(v, '\t');
    MarkerChars();
    FieldHoldsSuffix("\t", CustomValueMarker, v);
    FieldValue(name, v);
    FieldLacks(name, v, RadiusMarker);
    LacksCharNotContains(name, DespeckleMarker, 'D');
    FieldLacks(name, v, DespeckleMarker);
    LacksCharNotContains(name, FillHolesMarker, 'F');
    FieldLacks(name, v, FillHolesMarker);
  }

  /** On that line, the tests after the segmentation test change nothing. */
  lemma {:induction false} CustomValueLineReads(t: real, st: Settings, df6: Formatter, parseDouble: Parser)
    requires Readable(df6, parseDouble, t)
    ensures Contains(Field("\t" + CustomValueMarker, df6(t)), CustomValueMarker)
    ensures ValueText(Field("\t" + CustomValueMarker, df6(t))) == NormalizeDecimal(df6(t))
    ensures ReadTail(Field("\t" + CustomValueMarker, df6(t)), st, parseDouble) == Some(st)
  {
    CustomValueLineMarkers(df6(t));
  }

  lemma {:induction false} DespeckleLineMarkers()
    ensures Contains(Flag(DespeckleMarker), DespeckleMarker)
    ensures !Contains(Flag(DespeckleMarker), ChannelMarker) && !Contains(Flag(DespeckleMarker), DuplicateMarker)
    ensures !Contains(Flag(DespeckleMarker), ExcludeMarker) && !Contains(Flag(DespeckleMarker), SegmentationMarker)
    ensures !Contains(Flag(DespeckleMarker), RadiusMarker) && !Contains(Flag(DespeckleMarker), FillHolesMarker)
  {
    var text := DespeckleMarker;
    MarkerChars();
    assert text + "" == text;
    FlagHolds(text, "");
    LacksCharNotContains(text, ChannelMarker, 'C');
    FlagLacks(text, ChannelMarker);
    FlagLacks(text, DuplicateMarker);
    FlagLacks(text, ExcludeMarker);
    FlagLacks(text, SegmentationMarker);
    FlagLacks(text, RadiusMarker);
    FlagLacks(text, FillHolesMarker);
  }

  lemma {:induction false} DespeckleLineReads(b: bool, st: Settings, parseDouble: Parser)
    ensures !IsCustomLine(if b then Flag(DespeckleMarker) else "")
    ensures ReadLine(if b then Flag(DespeckleMarker) else "", st, parseDouble) ==
      Some(if b then st.(despeckle := true) else st)
  {
    if b {
      DespeckleLineMarkers();
    } else {
      EmptyLineReads(st, parseDouble);
    }
  }

  lemma {:induction false} FillHolesLineMarkers()
    ensures Contains(Flag(FillHolesMarker), FillHolesMarker)
    ensures !Contains(Flag(FillHolesMarker), ChannelMarker) && !Contains(Flag(FillHolesMarker), DuplicateMarker)
    ensures !Contains(Flag(FillHolesMarker), ExcludeMarker) && !Contains(Flag(FillHolesMarker), SegmentationMarker)
    ensures !Contains(Flag(FillHolesMarker), RadiusMarker) && !Contains(Flag(FillHolesMarker), DespeckleMarker)
  {
    var text := FillHolesMarker;
    MarkerChars();
    assert text + "" == text;
    FlagHolds(text, "");
    LacksCharNotContains(text, ChannelMarker, 'C');
    FlagLacks(text, ChannelMarker);
    FlagLacks(text, DuplicateMarker);
    FlagLacks(text, ExcludeMarker);
    FlagLacks(text, SegmentationMarker);
    FlagLacks(text, RadiusMarker);
    LacksCharNotContains(text, DespeckleMarker, 'D');
    FlagLacks(text, DespeckleMarker);
  }

  lemma {:induction false} FillHolesLineReads(b: bool, st: Settings, parseDouble: Parser)
    ensures !IsCustomLine(if b then Flag(FillHolesMarker) else "")
    ensures ReadLine(if b then Flag(FillHolesMarker) else "", st, parseDouble) ==
      Some(if b then st.(fillHoles := true) else st)
  {
    if b {
      FillHolesLineMarkers();
    } else {
      EmptyLineReads(st, parseDouble);
    }
  }

  lemma {:induction false} RadiusLineMarkers(v: string)
    requires Numeric(v)
    ensures Contains(Field(RadiusMarker + ":", v), RadiusMarker) && AfterLastTab(Field(RadiusMarker + ":", v)) == v
    ensures !Contains(Field(RadiusMarker + ":", v), ChannelMarker) && !Contains(Field(RadiusMarker + ":", v), DuplicateMarker)
    ensures !Contains(Field(RadiusMarker + ":", v), ExcludeMarker) && !Contains(Field(RadiusMarker + ":", v), SegmentationMarker)
    ensures !Contains(Field(RadiusMarker + ":", v), DespeckleMarker) && !Contains(Field(RadiusMarker + ":", v), FillHolesMarker)
  {
    var name := RadiusMarker + ":";
    NumericUnmarked(v);
    NumericLacks(v, '\t');
    MarkerChars();
    FieldHoldsPrefix(RadiusMarker, ":", v);
    FieldValue(name, v);
    LacksCharNotContains(name, ChannelMarker, 'C');
    FieldLacks(name, v, ChannelMarker);
    LacksCharNotContains(name, DuplicateMarker, 'C');
    FieldLacks(name, v, DuplicateMarker);
    FieldLacks(name, v, ExcludeMarker);
    LacksCharNotContains(name, SegmentationMarker, 'S');
    FieldLacks(name, v, SegmentationMarker);
    LacksCharNotContains(name, DespeckleMarker, 'D');
    FieldLacks(name, v, DespeckleMarker);
    LacksCharNotContains(name, FillHolesMarker, 'F');
    FieldLacks(name, v, FillHolesMarker);
  }

  /** The radius line sets the noise radius read back. */
  lemma {:induction false} RadiusLineReads(r: real, st: Settings, df6: Formatter, parseDouble: Parser)
    requires Readable(df6, parseDouble, r)
    ensures !IsCustomLine(Field(RadiusMarker + ":", df6(r)))
    ensures ReadLine(Field(RadiusMarker + ":", df6(r)), st, parseDouble) ==
      Some(st.(removeRadius := ReadBack(df6, parseDouble, r)))
  {
    RadiusLineMarkers(df6(r));
  }

  // ---------------------------------------------------------------------
  // The segmentation line of an auto-threshold method
  // ---------------------------------------------------------------------

  /** The characters of a method name: lower-case letters, underscores and
      the capitals in caps. */
  predicate NameChars(w: string, caps: string)
  {
    forall i | 0 <= i < |w| :: 'a' <= w[i] <= 'z' || w[i] == '_' || w[i] in caps
  }

  lemma NameCharsLacks(w: string, caps: string, c: char)
    requires NameChars(w, caps) && !('a' <= c <= 'z') && c != '_' && c !in caps
    ensures c !in w
  {
  }

  /** What the search for earlier names relies on: a name starts with a
      capital, holds no space or tab, and does not occur in the
      segmentation marker. */
  predicate NameShaped(w: string)
  {
    |w| > 0 && 'A' <= w[0] <= 'Z' && ' ' !in w && '\t' !in w && !Contains(SegmentationMarker, w)
  }

  /** What the reading of the line that names x relies on: x is short and
      lacks the characters that tell the other markers apart. */
  predicate Findable(x: string)
  {
    |x| <= 12 && ' ' !in x && '\t' !in x && 'N' !in x && 'C' !in x && 'U' !in x && 'F' !in x && 'k' !in x
  }

  lemma {:induction false} NameFactsOf(w: string, caps: string)
    requires |w| > 0 && 'A' <= w[0] <= 'Z' && w[0] != 'S' && |w| <= 12 && 'k' !in w
    requires NameChars(w, caps) && ' ' !in caps && '\t' !in caps
    requires 'N' !in caps && 'C' !in caps && 'U' !in caps && 'F' !in caps
    ensures NameShaped(w) && Findable(w)
  {
    SegmentationMarkerPlain();
    NameCharsLacks(w, caps, ' ');
    NameCharsLacks(w, caps, '\t');
    NameCharsLacks(w, caps, 'N');
    NameCharsLacks(w, caps, 'C');
    NameCharsLacks(w, caps, 'U');
    NameCharsLacks(w, caps, 'F');
    PlainLacks(SegmentationMarker, "S:", w[0]);
    LacksCharNotContains(SegmentationMarker, w, w[0]);
  }

  /** Part of NamesShaped, split so that each proof stays small: names
      Default, IJ_IsoData, Huang (indices 0 to 2). */
  lemma NamesShaped1(b: nat)
    requires 0 <= b < 3
    ensures NameShaped(Algorithms[b]) && Findable(Algorithms[b])
  {
    if b == 0 {
      assert NameChars(Algorithms[0], "D") && 'k' !in Algorithms[0];
      NameFactsOf(Algorithms[0], "D");
    } else if b == 1 {
      assert NameChars(Algorithms[1], "IJD") && 'k' !in Algorithms[1];
      NameFactsOf(Algorithms[1], "IJD");
    } else if b == 2 {
      assert NameChars(Algorithms[2], "H") && 'k' !in Algorithms[2];
      NameFactsOf(Algorithms[2], "H");
    }
  }

  /** Part of NamesShaped, split so that each proof stays small: names
      Intermodes, IsoData, Li (indices 3 to 5). */
  lemma NamesShaped2(b: nat)
    requires 3 <= b < 6
    ensures NameShaped(Algorithms[b]) && Findable(Algorithms[b])
  {
    if b == 3 {
      assert NameChars(Algorithms[3], "I") && 'k' !in Algorithms[3];
      NameFactsOf(Algorithms[3], "I");
    } else if b == 4 {
      assert NameChars(Algorithms[4], "ID") && 'k' !in Algorithms[4];
      NameFactsOf(Algorithms[4], "ID");
    } else if b == 5 {
      assert NameChars(Algorithms[5], "L") && 'k' !in Algorithms[5];
      NameFactsOf(Algorithms[5], "L");
    }
  }

  /** Part of NamesShaped, split so that each proof stays small: names
      MaxEntropy, Mean, MinError (indices 6 to 8). */
  lemma NamesShaped3(b: nat)
    requires 6 <= b < 9
    ensures NameShaped(Algorithms[b]) && Findable(Algorithms[b])
  {
    if b == 6 {
      assert NameChars(Algorithms[6], "ME") && 'k' !in Algorithms[6];
      NameFactsOf(Algorithms[6], "ME");
    } else if b == 7 {
      assert NameChars(Algorithms[7], "M") && 'k' !in Algorithms[7];
      NameFactsOf(Algorithms[7], "M");
    } else if b == 8 {
      assert NameChars(Algorithms[8], "ME") && 'k' !in Algorithms[8];
      NameFactsOf(Algorithms[8], "ME");
    }
  }

  /** Part of NamesShaped, split so that each proof stays small: names
      Minimum, Moments, Otsu (indices 9 to 11). */
  lemma NamesShaped4(b: nat)
    requires 9 <= b < 12
    ensures NameShaped(Algorithms[b]) && Findable(Algorithms[b])
  {
    if b == 9 {
      assert NameChars(Algorithms[9], "M") && 'k' !in Algorithms[9];
      NameFactsOf(Algorithms[9], "M");
    } else if b == 10 {
      assert NameChars(Algorithms[10], "M") && 'k' !in Algorithms[10];
      NameFactsOf(Algorithms[10], "M");
    } else if b == 11 {
      assert NameChars(Algorithms[11], "O") && 'k' !in Algorithms[11];
      NameFactsOf(Algorithms[11], "O");
    }
  }

  /** Part of NamesShaped, split so that each proof stays small: names
      Percentile, RenyiEntropy, Shanbhag (indices 12 to 14). */
  lemma NamesShaped5(b: nat)
    requires 12 <= b < 15
    ensures NameShaped(Algorithms[b]) && Findable(Algorithms[b])
  {
    if b == 12 {
      assert NameChars(Algorithms[12], "P") && 'k' !in Algorithms[12];
      NameFactsOf(Algorithms[12], "P");
    } else if b == 13 {
      assert NameChars(Algorithms[13], "RE") && 'k' !in Algorithms[13];
      NameFactsOf(Algorithms[13], "RE");
    } else if b == 14 {
      var w := Algorithms[14];
      assert NameChars(w, "S") && 'k' !in w && 'b' !in SegmentationMarker;
      NameCharsLacks(w, "S", ' ');
      NameCharsLacks(w, "S", '\t');
      NameCharsLacks(w, "S", 'N');
      NameCharsLacks(w, "S", 'C');
      NameCharsLacks(w, "S", 'U');
      NameCharsLacks(w, "S", 'F');
      LacksCharNotContains(SegmentationMarker, w, 'b');
    }
  }

  /** Part of NamesShaped, split so that each proof stays small: names
      Triangle, Yen (indices 15 to 16). */
  lemma NamesShaped6(b: nat)
    requires 15 <= b < 17
    ensures NameShaped(Algorithms[b]) && Findable(Algorithms[b])
  {
    if b == 15 {
      assert NameChars(Algorithms[15], "T") && 'k' !in Algorithms[15];
      NameFactsOf(Algorithms[15], "T");
    } else if b == 16 {
      assert NameChars(Algorithms[16], "Y") && 'k' !in Algorithms[16];
      NameFactsOf(Algorithms[16], "Y");
    }
  }

  /** Every auto-threshold method name has the shape the reader relies on. */
  lemma NamesShaped(b: nat)
    requires b < |Algorithms| - 1
    ensures NameShaped(Algorithms[b]) && Findable(Algorithms[b])
  {
    if b < 3 {
      NamesShaped1(b);
    } else if b < 6 {
      NamesShaped2(b);
    } else if b < 9 {
      NamesShaped3(b);
    } else if b < 12 {
      NamesShaped4(b);
    } else if b < 15 {
      NamesShaped5(b);
    } else {
      NamesShaped6(b);
    }
  }

  /** Part of NoNameHoldsAnEarlierOne, split so that each proof stays small:
      IJ_IsoData against every earlier name; Huang against every earlier
      name; Intermodes against every earlier name; IsoData against every
      earlier name. */
  lemma EarlierNamesAbsent1(k: nat, b: nat)
    requires b < k < |Algorithms| - 1 && 100 <= k * 100 + b <= 403
    ensures !Contains(Algorithms[k], Algorithms[b])
  {
    if k == 1 && b == 0 {
      LacksCharNotContains(Algorithms[1], Algorithms[0], 'e');
    } else if k == 3 && b == 0 {
      LacksCharNotContains(Algorithms[3], Algorithms[0], 'D');
    } else if k == 3 && b == 1 {
      LacksCharNotContains(Algorithms[3], Algorithms[1], 'J');
    } else if k == 3 && b == 2 {
      LacksCharNotContains(Algorithms[3], Algorithms[2], 'H');
    } else if k == 4 && b == 0 {
      LacksCharNotContains(Algorithms[4], Algorithms[0], 'e');
    } else if k == 4 && b == 2 {
      LacksCharNotContains(Algorithms[4], Algorithms[2], 'H');
    }
  }

  /** Part of NoNameHoldsAnEarlierOne, split so that each proof stays small:
      Li against every earlier name; MaxEntropy against every earlier name. */
  lemma EarlierNamesAbsent2(k: nat, b: nat)
    requires b < k < |Algorithms| - 1 && 500 <= k * 100 + b <= 605
    ensures !Contains(Algorithms[k], Algorithms[b])
  {
    if k == 6 && b == 0 {
      LacksCharNotContains(Algorithms[6], Algorithms[0], 'D');
    } else if k == 6 && b == 1 {
      LacksCharNotContains(Algorithms[6], Algorithms[1], 'I');
    } else if k == 6 && b == 2 {
      LacksCharNotContains(Algorithms[6], Algorithms[2], 'H');
    } else if k == 6 && b == 3 {
      LacksCharNotContains(Algorithms[6], Algorithms[3], 'I');
    } else if k == 6 && b == 4 {
      LacksCharNotContains(Algorithms[6], Algorithms[4], 'I');
    } else if k == 6 && b == 5 {
      LacksCharNotContains(Algorithms[6], Algorithms[5], 'L');
    }
  }

  /** Part of NoNameHoldsAnEarlierOne, split so that each proof stays small:
      Mean against every earlier name; MinError against every earlier name. */
  lemma EarlierNamesAbsent3(k: nat, b: nat)
    requires b < k < |Algorithms| - 1 && 700 <= k * 100 + b <= 807
    ensures !Contains(Algorithms[k], Algorithms[b])
  {
    if k == 7 && b == 5 {
      LacksCharNotContains(Algorithms[7], Algorithms[5], 'L');
    } else if k == 8 && b == 0 {
      LacksCharNotContains(Algorithms[8], Algorithms[0], 'D');
    } else if k == 8 && b == 2 {
      LacksCharNotContains(Algorithms[8], Algorithms[2], 'H');
    } else if k == 8 && b == 4 {
      LacksCharNotContains(Algorithms[8], Algorithms[4], 'I');
    } else if k == 8 && b == 5 {
      LacksCharNotContains(Algorithms[8], Algorithms[5], 'L');
    } else if k == 8 && b == 7 {
      LacksCharNotContains(Algorithms[8], Algorithms[7], 'e');
    }
  }

  /** Part of NoNameHoldsAnEarlierOne, split so that each proof stays small:
      Minimum against every earlier name; Moments against Default to
      IsoData. */
  lemma EarlierNamesAbsent4(k: nat, b: nat)
    requires b < k < |Algorithms| - 1 && 900 <= k * 100 + b <= 1004
    ensures !Contains(Algorithms[k], Algorithms[b])
  {
    if k == 9 && b == 0 {
      LacksCharNotContains(Algorithms[9], Algorithms[0], 'D');
    } else if k == 9 && b == 2 {
      LacksCharNotContains(Algorithms[9], Algorithms[2], 'H');
    } else if k == 9 && b == 4 {
      LacksCharNotContains(Algorithms[9], Algorithms[4], 'I');
    } else if k == 9 && b == 5 {
      LacksCharNotContains(Algorithms[9], Algorithms[5], 'L');
    } else if k == 9 && b == 7 {
      LacksCharNotContains(Algorithms[9], Algorithms[7], 'e');
    } else if k == 10 && b == 0 {
      LacksCharNotContains(Algorithms[10], Algorithms[0], 'D');
    } else if k == 10 && b == 2 {
      LacksCharNotContains(Algorithms[10], Algorithms[2], 'H');
    } else if k == 10 && b == 4 {
      LacksCharNotContains(Algorithms[10], Algorithms[4], 'I');
    }
  }

  /** Part of NoNameHoldsAnEarlierOne, split so that each proof stays small:
      Moments against Li to Minimum; Otsu against every earlier name;
      Percentile against Default to Huang. */
  lemma EarlierNamesAbsent5(k: nat, b: nat)
    requires b < k < |Algorithms| - 1 && 1005 <= k * 100 + b <= 1202
    ensures !Contains(Algorithms[k], Algorithms[b])
  {
    if k == 10 && b == 5 {
      LacksCharNotContains(Algorithms[10], Algorithms[5], 'L');
    } else if k == 10 && b == 7 {
      LacksCharNotContains(Algorithms[10], Algorithms[7], 'a');
    } else if k == 10 && b == 9 {
      LacksCharNotContains(Algorithms[10], Algorithms[9], 'i');
    } else if k == 11 && b == 5 {
      LacksCharNotContains(Algorithms[11], Algorithms[5], 'L');
    } else if k == 11 && b == 7 {
      LacksCharNotContains(Algorithms[11], Algorithms[7], 'M');
    } else if k == 12 && b == 0 {
      LacksCharNotContains(Algorithms[12], Algorithms[0], 'D');
    } else if k == 12 && b == 1 {
      LacksCharNotContains(Algorithms[12], Algorithms[1], 'I');
    } else if k == 12 && b == 2 {
      LacksCharNotContains(Algorithms[12], Algorithms[2], 'H');
    }
  }

  /** Part of NoNameHoldsAnEarlierOne, split so that each proof stays small:
      Percentile against Intermodes to Moments. */
  lemma EarlierNamesAbsent6(k: nat, b: nat)
    requires b < k < |Algorithms| - 1 && 1203 <= k * 100 + b <= 1210
    ensures !Contains(Algorithms[k], Algorithms[b])
  {
    if k == 12 && b == 3 {
      LacksCharNotContains(Algorithms[12], Algorithms[3], 'I');
    } else if k == 12 && b == 4 {
      LacksCharNotContains(Algorithms[12], Algorithms[4], 'I');
    } else if k == 12 && b == 5 {
      LacksCharNotContains(Algorithms[12], Algorithms[5], 'L');
    } else if k == 12 && b == 6 {
      LacksCharNotContains(Algorithms[12], Algorithms[6], 'M');
    } else if k == 12 && b == 7 {
      LacksCharNotContains(Algorithms[12], Algorithms[7], 'M');
    } else if k == 12 && b == 8 {
      LacksCharNotContains(Algorithms[12], Algorithms[8], 'M');
    } else if k == 12 && b == 9 {
      LacksCharNotContains(Algorithms[12], Algorithms[9], 'M');
    } else if k == 12 && b == 10 {
      LacksCharNotContains(Algorithms[12], Algorithms[10], 'M');
    }
  }

  /** Part of NoNameHoldsAnEarlierOne, split so that each proof stays small:
      Percentile against Otsu; RenyiEntropy against Default to MaxEntropy. */
  lemma EarlierNamesAbsent7(k: nat, b: nat)
    requires b < k < |Algorithms| - 1 && 1211 <= k * 100 + b <= 1306
    ensures !Contains(Algorithms[k], Algorithms[b])
  {
    if k == 12 && b == 11 {
      LacksCharNotContains(Algorithms[12], Algorithms[11], 'O');
    } else if k == 13 && b == 0 {
      LacksCharNotContains(Algorithms[13], Algorithms[0], 'D');
    } else if k == 13 && b == 1 {
      LacksCharNotContains(Algorithms[13], Algorithms[1], 'I');
    } else if k == 13 && b == 2 {
      LacksCharNotContains(Algorithms[13], Algorithms[2], 'H');
    } else if k == 13 && b == 3 {
      LacksCharNotContains(Algorithms[13], Algorithms[3], 'I');
    } else if k == 13 && b == 4 {
      LacksCharNotContains(Algorithms[13], Algorithms[4], 'I');
    } else if k == 13 && b == 5 {
      LacksCharNotContains(Algorithms[13], Algorithms[5], 'L');
    } else if k == 13 && b == 6 {
      LacksCharNotContains(Algorithms[13], Algorithms[6], 'M');
    }
  }

  /** Part of NoNameHoldsAnEarlierOne, split so that each proof stays small:
      RenyiEntropy against Mean to Percentile. */
  lemma EarlierNamesAbsent8(k: nat, b: nat)
    requires b < k < |Algorithms| - 1 && 1307 <= k * 100 + b <= 1312
    ensures !Contains(Algorithms[k], Algorithms[b])
  {
    if k == 13 && b == 7 {
      LacksCharNotContains(Algorithms[13], Algorithms[7], 'M');
    } else if k == 13 && b == 8 {
      LacksCharNotContains(Algorithms[13], Algorithms[8], 'M');
    } else if k == 13 && b == 9 {
      LacksCharNotContains(Algorithms[13], Algorithms[9], 'M');
    } else if k == 13 && b == 10 {
      LacksCharNotContains(Algorithms[13], Algorithms[10], 'M');
    } else if k == 13 && b == 11 {
      LacksCharNotContains(Algorithms[13], Algorithms[11], 'O');
    } else if k == 13 && b == 12 {
      LacksCharNotContains(Algorithms[13], Algorithms[12], 'P');
    }
  }

  /** Part of NoNameHoldsAnEarlierOne, split so that each proof stays small:
      Shanbhag against Default to Moments. */
  lemma EarlierNamesAbsent9(k: nat, b: nat)
    requires b < k < |Algorithms| - 1 && 1400 <= k * 100 + b <= 1410
    ensures !Contains(Algorithms[k], Algorithms[b])
  {
    if k == 14 && b == 0 {
      LacksCharNotContains(Algorithms[14], Algorithms[0], 'D');
    } else if k == 14 && b == 2 {
      LacksCharNotContains(Algorithms[14], Algorithms[2], 'H');
    } else if k == 14 && b == 4 {
      LacksCharNotContains(Algorithms[14], Algorithms[4], 'I');
    } else if k == 14 && b == 5 {
      LacksCharNotContains(Algorithms[14], Algorithms[5], 'L');
    } else if k == 14 && b == 7 {
      LacksCharNotContains(Algorithms[14], Algorithms[7], 'M');
    } else if k == 14 && b == 8 {
      LacksCharNotContains(Algorithms[14], Algorithms[8], 'M');
    } else if k == 14 && b == 9 {
      LacksCharNotContains(Algorithms[14], Algorithms[9], 'M');
    } else if k == 14 && b == 10 {
      LacksCharNotContains(Algorithms[14], Algorithms[10], 'M');
    }
  }

  /** Part of NoNameHoldsAnEarlierOne, split so that each proof stays small:
      Shanbhag against Otsu to RenyiEntropy; Triangle against Default to
      Minimum. */
  lemma EarlierNamesAbsent10(k: nat, b: nat)
    requires b < k < |Algorithms| - 1 && 1411 <= k * 100 + b <= 1509
    ensures !Contains(Algorithms[k], Algorithms[b])
  {
    if k == 14 && b == 11 {
      LacksCharNotContains(Algorithms[14], Algorithms[11], 'O');
    } else if k == 15 && b == 0 {
      LacksCharNotContains(Algorithms[15], Algorithms[0], 'D');
    } else if k == 15 && b == 2 {
      LacksCharNotContains(Algorithms[15], Algorithms[2], 'H');
    } else if k == 15 && b == 4 {
      LacksCharNotContains(Algorithms[15], Algorithms[4], 'I');
    } else if k == 15 && b == 5 {
      LacksCharNotContains(Algorithms[15], Algorithms[5], 'L');
    } else if k == 15 && b == 7 {
      LacksCharNotContains(Algorithms[15], Algorithms[7], 'M');
    } else if k == 15 && b == 8 {
      LacksCharNotContains(Algorithms[15], Algorithms[8], 'M');
    } else if k == 15 && b == 9 {
      LacksCharNotContains(Algorithms[15], Algorithms[9], 'M');
    }
  }

  /** Part of NoNameHoldsAnEarlierOne, split so that each proof stays small:
      Triangle against Moments to Shanbhag; Yen against every earlier name. */
  lemma EarlierNamesAbsent11(k: nat, b: nat)
    requires b < k < |Algorithms| - 1 && 1510 <= k * 100 + b <= 1615
    ensures !Contains(Algorithms[k], Algorithms[b])
  {
    if k == 15 && b == 10 {
      LacksCharNotContains(Algorithms[15], Algorithms[10], 'M');
    } else if k == 15 && b == 11 {
      LacksCharNotContains(Algorithms[15], Algorithms[11], 'O');
    } else if k == 15 && b == 14 {
      LacksCharNotContains(Algorithms[15], Algorithms[14], 'S');
    } else if k == 16 && b == 5 {
      LacksCharNotContains(Algorithms[16], Algorithms[5], 'L');
    }
  }

  /** No auto-threshold method name holds an earlier one, so the search
      stops at the name the line was written with. */
  lemma NoNameHoldsAnEarlierOne(k: nat, b: nat)
    requires b < k < |Algorithms| - 1
    ensures !Contains(Algorithms[k], Algorithms[b])
  {
    if k * 100 + b <= 403 {
      EarlierNamesAbsent1(k, b);
    } else if k * 100 + b <= 605 {
      EarlierNamesAbsent2(k, b);
    } else if k * 100 + b <= 807 {
      EarlierNamesAbsent3(k, b);
    } else if k * 100 + b <= 1004 {
      EarlierNamesAbsent4(k, b);
    } else if k * 100 + b <= 1202 {
      EarlierNamesAbsent5(k, b);
    } else if k * 100 + b <= 1210 {
      EarlierNamesAbsent6(k, b);
    } else if k * 100 + b <= 1306 {
      EarlierNamesAbsent7(k, b);
    } else if k * 100 + b <= 1312 {
      EarlierNamesAbsent8(k, b);
    } else if k * 100 + b <= 1410 {
      EarlierNamesAbsent9(k, b);
    } else if k * 100 + b <= 1509 {
      EarlierNamesAbsent10(k, b);
    } else {
      EarlierNamesAbsent11(k, b);
    }
  }

  /** The fixed pieces of the method line are lower-case text. */
  lemma Applying1Plain()
    ensures Plain(Applying1, "") && 'k' !in Applying1
  {
  }

  lemma Applying2Plain()
    ensures Plain(Applying2, "") && 'k' !in Applying2
  {
  }

  lemma AlgorithmPiecesPlain()
    ensures Plain(ApplyingMarker, "") && Plain(AlgorithmOn, "") && Plain(AlgorithmTail, ".")
    ensures 'k' !in ApplyingMarker && 'k' !in AlgorithmOn && 'k' !in AlgorithmTail
    ensures |ApplyingMarker| == 35 && |AlgorithmOn| == 7 && |AlgorithmTail| == 20
  {
    Applying1Plain();
    Applying2Plain();
    PlainConcat(Applying1, Applying2, "");
  }

  /** A name that x does not hold occurs nowhere in the method text for x. */
  lemma {:induction false} NameNotInAlgorithmText(x: string, w: string)
    requires NameShaped(w) && !Contains(x, w)
    ensures !Contains(AlgorithmText(x), w)
  {
    AlgorithmPiecesPlain();
    PlainLacks(AlgorithmOn, "", w[0]);
    NotContainsAfter(AlgorithmOn, x, w);
    PlainLacks(AlgorithmTail, ".", w[0]);
    LacksCharNotContains(AlgorithmTail, w, w[0]);
    NotContainsAcross(AlgorithmOn + x, ' ', AlgorithmTail, w);
    assert AlgorithmOn + x + " " + AlgorithmTail == AlgorithmOn + x + [' '] + AlgorithmTail;
    PlainLacks(ApplyingMarker, "", w[0]);
    NotContainsAfter(ApplyingMarker, AlgorithmOn + x + " " + AlgorithmTail, w);
  }

  /** What a field's value holds, the field holds. */
  lemma {:induction false} FieldValueHolds(name: string, value: string, w: string)
    requires Contains(value, w)
    ensures Contains(Field(name, value), w)
  {
    var k :| 0 <= k <= |value| - |w| && StartsWith(value[k..], w);
    var s := Field(name, value);
    var p := |name| + 2;
    assert s[p..] == value;
    assert s[p + k..p + k + |w|] == value[k..][..|w|];
    ContainsAt(s, w, p + k);
  }

  lemma {:induction false} ContainsParts(a: string, b: string, x: string, c: string, d: string)
    ensures Contains(a + (b + x + c + d), a) && Contains(a + (b + x + c + d), x)
  {
    ContainsInfix("", a, b + x + c + d);
    assert "" + a + (b + x + c + d) == a + (b + x + c + d);
    ContainsInfix(a + b, x, c + d);
    assert a + b + x + (c + d) == a + (b + x + c + d);
  }

  /** The method text for x names the method marker and x. */
  lemma {:induction false} AlgorithmTextHolds(x: string)
    ensures Contains(AlgorithmText(x), ApplyingMarker) && Contains(AlgorithmText(x), x)
  {
    ContainsParts(ApplyingMarker, AlgorithmOn, x, " ", AlgorithmTail);
  }

  /** The method text for x lacks the characters of the other markers. */
  lemma {:induction false} AlgorithmTextChars(x: string)
    requires Findable(x)
    ensures 'U' !in AlgorithmText(x) && 'N' !in AlgorithmText(x) && 'C' !in AlgorithmText(x)
    ensures 'F' !in AlgorithmText(x) && 'k' !in AlgorithmText(x) && '\t' !in AlgorithmText(x)
    ensures |AlgorithmText(x)| <= 75
  {
    AlgorithmPiecesPlain();
    PlainLacks(ApplyingMarker, "", 'U');
    PlainLacks(AlgorithmOn, "", 'U');
    PlainLacks(AlgorithmTail, ".", 'U');
    PlainLacks(ApplyingMarker, "", 'N');
    PlainLacks(AlgorithmOn, "", 'N');
    PlainLacks(AlgorithmTail, ".", 'N');
    PlainLacks(ApplyingMarker, "", 'C');
    PlainLacks(AlgorithmOn, "", 'C');
    PlainLacks(AlgorithmTail, ".", 'C');
    PlainLacks(ApplyingMarker, "", 'F');
    PlainLacks(AlgorithmOn, "", 'F');
    PlainLacks(AlgorithmTail, ".", 'F');
    PlainLacks(ApplyingMarker, "", '\t');
    PlainLacks(AlgorithmOn, "", '\t');
    PlainLacks(AlgorithmTail, ".", '\t');
  }

  /** The segmentation line of method x holds the segmentation and method
      markers and x, and none of the other markers. */
  lemma {:induction false} AlgorithmLineMarkers(x: string)
    requires Findable(x)
    ensures Contains(Field(SegmentationMarker, AlgorithmText(x)), SegmentationMarker)
    ensures Contains(Field(SegmentationMarker, AlgorithmText(x)), ApplyingMarker)
    ensures Contains(Field(SegmentationMarker, AlgorithmText(x)), x)
    ensures !Contains(Field(SegmentationMarker, AlgorithmText(x)), Custom)
    ensures !Contains(Field(SegmentationMarker, AlgorithmText(x)), ChannelMarker)
    ensures !Contains(Field(SegmentationMarker, AlgorithmText(x)), DuplicateMarker)
    ensures !Contains(Field(SegmentationMarker, AlgorithmText(x)), ExcludeMarker)
    ensures !Contains(Field(SegmentationMarker, AlgorithmText(x)), RadiusMarker)
    ensures !Contains(Field(SegmentationMarker, AlgorithmText(x)), DespeckleMarker)
    ensures !Contains(Field(SegmentationMarker, AlgorithmText(x)), FillHolesMarker)
  {
    var t := AlgorithmText(x);
    MarkerChars();
    AlgorithmTextChars(x);
    FieldHoldsName(SegmentationMarker, t);
    AlgorithmTextHolds(x);
    FieldValueHolds(SegmentationMarker, t, ApplyingMarker);
    FieldValueHolds(SegmentationMarker, t, x);
    LacksCharNotContains(SegmentationMarker, Custom, 'U');
    LacksCharNotContains(t, Custom, 'U');
    FieldLacks(SegmentationMarker, t, Custom);
    LacksCharNotContains(SegmentationMarker, ChannelMarker, 'N');
    LacksCharNotContains(t, ChannelMarker, 'N');
    FieldLacks(SegmentationMarker, t, ChannelMarker);
    LacksCharNotContains(SegmentationMarker, DuplicateMarker, 'C');
    LacksCharNotContains(t, DuplicateMarker, 'C');
    FieldLacks(SegmentationMarker, t, DuplicateMarker);
    LacksCharNotContains(SegmentationMarker, ExcludeMarker, 'E');
    FieldLacks(SegmentationMarker, t, ExcludeMarker);
    FieldLacks(SegmentationMarker, t, RadiusMarker);
    LacksCharNotContains(SegmentationMarker, DespeckleMarker, 'D');
    LacksCharNotContains(t, DespeckleMarker, 'k');
    FieldLacks(SegmentationMarker, t, DespeckleMarker);
    LacksCharNotContains(SegmentationMarker, FillHolesMarker, 'F');
    LacksCharNotContains(t, FillHolesMarker, 'F');
    FieldLacks(SegmentationMarker, t, FillHolesMarker);
  }

  /** The search returns the method at index k when the line holds that
      name and none of the names between a and k. */
  lemma {:induction false} FirstAlgorithmFrom(line: string, a: nat, k: nat)
    requires a <= k < |Algorithms| && Contains(line, Algorithms[k])
    requires forall b | a <= b < k :: !Contains(line, Algorithms[b])
    ensures FirstAlgorithm(line, a) == Some(Algorithms[k])
    decreases k - a
  {
    if a < k {
      FirstAlgorithmFrom(line, a + 1, k);
    }
  }

  /** The search over the segmentation line of an auto-threshold method
      finds that method. */
  lemma {:induction false} AlgorithmLineFinds(x: string)
    requires x in Algorithms && x != Custom
    ensures FirstAlgorithm(Field(SegmentationMarker, AlgorithmText(x)), 0) == Some(x)
  {
    var line := Field(SegmentationMarker, AlgorithmText(x));
    var k :| 0 <= k < |Algorithms| && Algorithms[k] == x;
    assert Algorithms[|Algorithms| - 1] == Custom;
    NamesShaped(k);
    AlgorithmLineMarkers(x);
    forall b | 0 <= b < k
      ensures !Contains(line, Algorithms[b])
    {
      NamesShaped(b);
      NoNameHoldsAnEarlierOne(k, b);
      NameNotInAlgorithmText(x, Algorithms[b]);
      FieldLacks(SegmentationMarker, AlgorithmText(x), Algorithms[b]);
    }
    FirstAlgorithmFrom(line, 0, k);
  }

  /** The segmentation line of an auto-threshold method sets exactly that
      method. */
  lemma {:induction false} AlgorithmLineReads(x: string, st: Settings, parseDouble: Parser)
    requires x in Algorithms && x != Custom
    ensures !IsCustomLine(Field(SegmentationMarker, AlgorithmText(x)))
    ensures ReadLine(Field(SegmentationMarker, AlgorithmText(x)), st, parseDouble) == Some(st.(chosenAlgorithm := x))
  {
    var k :| 0 <= k < |Algorithms| && Algorithms[k] == x;
    assert Algorithms[|Algorithms| - 1] == Custom;
    NamesShaped(k);
    AlgorithmLineMarkers(x);
    AlgorithmLineFinds(x);
  }

  // ---------------------------------------------------------------------
  // Reading the whole block back
  // ---------------------------------------------------------------------

  /** The preferences whose block the reader can read back: a Java `int`
      channel, a method of the dialog, and every written decimal readable. */
  predicate Loggable(st: Settings, df6: Formatter, parseDouble: Parser)
  {
    IntMin <= st.channelID <= IntMax && st.chosenAlgorithm in Algorithms &&
    (st.excludeZeroRegions ==> Readable(df6, parseDouble, st.closeGapsRadius)) &&
    (IsCustom(st) ==> Readable(df6, parseDouble, st.customThr)) &&
    Readable(df6, parseDouble, st.removeRadius)
  }

  /** What reading the block written for st does to preferences s0: the
      written flags are set (unset ones keep s0's value, as the reader only
      ever sets flags), the written numbers are read back, and numbers that
      were not written keep s0's value. */
  function BlockResult(s0: Settings, st: Settings, df6: Formatter, parseDouble: Parser): Settings
    requires Loggable(st, df6, parseDouble)
  {
    Settings(
      st.channelID,
      s0.includeDuplicateChannel || st.includeDuplicateChannel,
      s0.excludeZeroRegions || st.excludeZeroRegions,
      if st.excludeZeroRegions then ReadBack(df6, parseDouble, st.closeGapsRadius) else s0.closeGapsRadius,
      ReadBack(df6, parseDouble, st.removeRadius),
      st.chosenAlgorithm,
      if IsCustom(st) then ReadBack(df6, parseDouble, st.customThr) else s0.customThr,
      s0.despeckle || st.despeckle,
      s0.fillHoles || st.fillHoles)
  }

  /** One step of the reading loop over a line that is not a custom
      segmentation line. */
  lemma ReadFromLine(lines: seq<string>, i: nat, st: Settings, s1: Settings, parseDouble: Parser, fixed: bool)
    requires i < |lines| && !IsCustomLine(lines[i]) && ReadLine(lines[i], st, parseDouble) == Some(s1)
    ensures ReadFrom(lines, i, st, parseDouble, fixed) == ReadFrom(lines, i + 1, s1, parseDouble, fixed)
  {
  }

  /** Lines without markers leave the preferences as they are, up to the
      end of the file. */
  lemma {:induction false} ReadFromUnmarked(lines: seq<string>, i: nat, st: Settings, parseDouble: Parser, fixed: bool)
    requires i <= |lines|
    requires forall j | i <= j < |lines| :: Unmarked(lines[j])
    ensures ReadFrom(lines, i, st, parseDouble, fixed) == Loaded(st)
    decreases |lines| - i
  {
    if i < |lines| {
      UnmarkedLineReads(lines[i], st, parseDouble);
      ReadFromUnmarked(lines, i + 1, st, parseDouble, fixed);
    }
  }

  /** The lines of the written block, one by one. */
  lemma BlockLines(lines: seq<string>, startDate: string, name: string, multiSeries: bool,
      series: int, st: Settings, df6: Formatter)
    requires |lines| >= 12 && lines[..12] == SettingsBlock(startDate, name, multiSeries, series, st, df6)
    ensures lines[0] == DateLine(startDate) && lines[1] == NameLine(name, multiSeries, series)
    ensures lines[2] == PreparationLine && lines[3] == Field(ChannelMarker, IntToString(st.channelID))
    ensures lines[4] == (if st.includeDuplicateChannel then Flag(DuplicateMarker + ".") else "")
    ensures lines[5] == (if st.excludeZeroRegions then Field(ExcludeMarker, df6(st.closeGapsRadius)) else "")
    ensures lines[6] == Field(SegmentationMarker, if IsCustom(st) then Custom else AlgorithmText(st.chosenAlgorithm))
    ensures lines[7] == (if IsCustom(st) then Field("\t" + CustomValueMarker, df6(st.customThr)) else "")
    ensures lines[8] == (if st.despeckle then Flag(DespeckleMarker) else "")
    ensures lines[9] == (if st.fillHoles then Flag(FillHolesMarker) else "")
    ensures lines[10] == Field(RadiusMarker + ":", df6(st.removeRadius)) && lines[11] == ""
  {
    var block := SettingsBlock(startDate, name, multiSeries, series, st, df6);
    assert forall j | 0 <= j < 12 :: lines[j] == lines[..12][j];
  }

  /** The first three lines hold no marker. */
  lemma {:induction false} HeaderReads(lines: seq<string>, startDate: string, name: string, multiSeries: bool,
      series: int, s0: Settings, parseDouble: Parser, fixed: bool)
    requires Unmarked(startDate) && Unmarked(name) && |lines| >= 3
    requires lines[0] == DateLine(startDate) && lines[1] == NameLine(name, multiSeries, series)
    requires lines[2] == PreparationLine
    ensures ReadFrom(lines, 0, s0, parseDouble, fixed) == ReadFrom(lines, 3, s0, parseDouble, fixed)
  {
    DateLineUnmarked(startDate);
    UnmarkedLineReads(lines[0], s0, parseDouble);
    ReadFromLine(lines, 0, s0, s0, parseDouble, fixed);
    NameLineUnmarked(name, multiSeries, series);
    UnmarkedLineReads(lines[1], s0, parseDouble);
    ReadFromLine(lines, 1, s0, s0, parseDouble, fixed);
    PreparationLineUnmarked();
    UnmarkedLineReads(lines[2], s0, parseDouble);
    ReadFromLine(lines, 2, s0, s0, parseDouble, fixed);
  }

  /** The channel, the duplicate-channel flag and the zero-region settings. */
  lemma {:induction false} ChannelLinesRead(lines: seq<string>, st: Settings, s0: Settings,
      df6: Formatter, parseDouble: Parser, fixed: bool)
    requires Loggable(st, df6, parseDouble) && |lines| >= 6
    requires lines[3] == Field(ChannelMarker, IntToString(st.channelID))
    requires lines[4] == (if st.includeDuplicateChannel then Flag(DuplicateMarker + ".") else "")
    requires lines[5] == (if st.excludeZeroRegions then Field(ExcludeMarker, df6(st.closeGapsRadius)) else "")
    ensures ReadFrom(lines, 3, s0, parseDouble, fixed) ==
      ReadFrom(lines, 6, s0.(channelID := st.channelID,
        includeDuplicateChannel := s0.includeDuplicateChannel || st.includeDuplicateChannel,
        excludeZeroRegions := s0.excludeZeroRegions || st.excludeZeroRegions,
        closeGapsRadius := if st.excludeZeroRegions then ReadBack(df6, parseDouble, st.closeGapsRadius) else s0.closeGapsRadius),
        parseDouble, fixed)
  {
    var a3 := s0.(channelID := st.channelID);
    ChannelLineReads(st.channelID, s0, parseDouble);
    ReadFromLine(lines, 3, s0, a3, parseDouble, fixed);
    var a4 := if st.includeDuplicateChannel then a3.(includeDuplicateChannel := true) else a3;
    DuplicateLineReads(st.includeDuplicateChannel, a3, parseDouble);
    ReadFromLine(lines, 4, a3, a4, parseDouble, fixed);
    var a5 := if st.excludeZeroRegions then
      a4.(excludeZeroRegions := true, closeGapsRadius := ReadBack(df6, parseDouble, st.closeGapsRadius)) else a4;
    ExcludeLineReads(st.excludeZeroRegions, st.closeGapsRadius, a4, df6, parseDouble);
    ReadFromLine(lines, 5, a4, a5, parseDouble, fixed);
  }

  /** The segmentation line and the line after it, for an auto-threshold
      method or, when the reader is fixed, for a custom threshold. */
  lemma {:induction false} SegmentationLinesRead(lines: seq<string>, st: Settings, s: Settings,
      df6: Formatter, parseDouble: Parser, fixed: bool)
    requires Loggable(st, df6, parseDouble) && |lines| >= 8 && (IsCustom(st) ==> fixed)
    requires lines[6] == Field(SegmentationMarker, if IsCustom(st) then Custom else AlgorithmText(st.chosenAlgorithm))
    requires lines[7] == (if IsCustom(st) then Field("\t" + CustomValueMarker, df6(st.customThr)) else "")
    ensures ReadFrom(lines, 6, s, parseDouble, fixed) ==
      ReadFrom(lines, 8, s.(chosenAlgorithm := st.chosenAlgorithm,
        customThr := if IsCustom(st) then ReadBack(df6, parseDouble, st.customThr) else s.customThr),
        parseDouble, fixed)
  {
    if IsCustom(st) {
      CustomLineReads(s, parseDouble);
      var s2 := s.(chosenAlgorithm := Custom, customThr := ReadBack(df6, parseDouble, st.customThr));
      CustomValueLineReads(st.customThr, s2, df6, parseDouble);
      assert ReadCustomValue(lines, 6, s, parseDouble) == Loaded(s2);
    } else {
      var a6 := s.(chosenAlgorithm := st.chosenAlgorithm);
      AlgorithmLineReads(st.chosenAlgorithm, s, parseDouble);
      ReadFromLine(lines, 6, s, a6, parseDouble, fixed);
      EmptyLineReads(a6, parseDouble);
      ReadFromLine(lines, 7, a6, a6, parseDouble, fixed);
    }
  }

  /** The despeckle and fill-holes flags and the noise radius. */
  lemma {:induction false} MaskLinesRead(lines: seq<string>, st: Settings, s: Settings,
      df6: Formatter, parseDouble: Parser, fixed: bool)
    requires Loggable(st, df6, parseDouble) && |lines| >= 11
    requires lines[8] == (if st.despeckle then Flag(DespeckleMarker) else "")
    requires lines[9] == (if st.fillHoles then Flag(FillHolesMarker) else "")
    requires lines[10] == Field(RadiusMarker + ":", df6(st.removeRadius))
    ensures ReadFrom(lines, 8, s, parseDouble, fixed) ==
      ReadFrom(lines, 11, s.(despeckle := s.despeckle || st.despeckle, fillHoles := s.fillHoles || st.fillHoles,
        removeRadius := ReadBack(df6, parseDouble, st.removeRadius)), parseDouble, fixed)
  {
    var a8 := if st.despeckle then s.(despeckle := true) else s;
    DespeckleLineReads(st.despeckle, s, parseDouble);
    ReadFromLine(lines, 8, s, a8, parseDouble, fixed);
    var a9 := if st.fillHoles then a8.(fillHoles := true) else a8;
    FillHolesLineReads(st.fillHoles, a8, parseDouble);
    ReadFromLine(lines, 9, a8, a9, parseDouble, fixed);
    var a10 := a9.(removeRadius := ReadBack(df6, parseDouble, st.removeRadius));
    RadiusLineReads(st.removeRadius, a9, df6, parseDouble);
    ReadFromLine(lines, 10, a9, a10, parseDouble, fixed);
  }

  /** The first half of the block: from the first line to the segmentation
      line. */
  lemma {:induction false} FirstHalfReads(lines: seq<string>, startDate: string, name: string, multiSeries: bool,
      series: int, st: Settings, s0: Settings, df6: Formatter, parseDouble: Parser, fixed: bool)
    requires Loggable(st, df6, parseDouble) && Unmarked(startDate) && Unmarked(name) && |lines| >= 6
    requires lines[0] == DateLine(startDate) && lines[1] == NameLine(name, multiSeries, series)
    requires lines[2] == PreparationLine && lines[3] == Field(ChannelMarker, IntToString(st.channelID))
    requires lines[4] == (if st.includeDuplicateChannel then Flag(DuplicateMarker + ".") else "")
    requires lines[5] == (if st.excludeZeroRegions then Field(ExcludeMarker, df6(st.closeGapsRadius)) else "")
    ensures ReadFrom(lines, 0, s0, parseDouble, fixed) ==
      ReadFrom(lines, 6, s0.(channelID := st.channelID,
        includeDuplicateChannel := s0.includeDuplicateChannel || st.includeDuplicateChannel,
        excludeZeroRegions := s0.excludeZeroRegions || st.excludeZeroRegions,
        closeGapsRadius := if st.excludeZeroRegions then ReadBack(df6, parseDouble, st.closeGapsRadius) else s0.closeGapsRadius),
        parseDouble, fixed)
  {
    HeaderReads(lines, startDate, name, multiSeries, series, s0, parseDouble, fixed);
    ChannelLinesRead(lines, st, s0, df6, parseDouble, fixed);
  }

  /** The second half: from the segmentation line to the end of the file. */
  lemma {:induction false} SecondHalfReads(lines: seq<string>, st: Settings, s: Settings,
      df6: Formatter, parseDouble: Parser, fixed: bool)
    requires Loggable(st, df6, parseDouble) && (IsCustom(st) ==> fixed)
    requires |lines| >= 12 && forall j | 12 <= j < |lines| :: Unmarked(lines[j])
    requires lines[6] == Field(SegmentationMarker, if IsCustom(st) then Custom else AlgorithmText(st.chosenAlgorithm))
    requires lines[7] == (if IsCustom(st) then Field("\t" + CustomValueMarker, df6(st.customThr)) else "")
    requires lines[8] == (if st.despeckle then Flag(DespeckleMarker) else "")
    requires lines[9] == (if st.fillHoles then Flag(FillHolesMarker) else "")
    requires lines[10] == Field(RadiusMarker + ":", df6(st.removeRadius)) && lines[11] == ""
    ensures ReadFrom(lines, 6, s, parseDouble, fixed) ==
      Loaded(s.(chosenAlgorithm := st.chosenAlgorithm,
        customThr := if IsCustom(st) then ReadBack(df6, parseDouble, st.customThr) else s.customThr,
        despeckle := s.despeckle || st.despeckle, fillHoles := s.fillHoles || st.fillHoles,
        removeRadius := ReadBack(df6, parseDouble, st.removeRadius)))
  {
    var a7 := s.(chosenAlgorithm := st.chosenAlgorithm,
      customThr := if IsCustom(st) then ReadBack(df6, parseDouble, st.customThr) else s.customThr);
    SegmentationLinesRead(lines, st, s, df6, parseDouble, fixed);
    MaskLinesRead(lines, st, a7, df6, parseDouble, fixed);
    PreparationLabelUnmarked();
    ReadFromUnmarked(lines, 11, a7.(despeckle := a7.despeckle || st.despeckle, fillHoles := a7.fillHoles || st.fillHoles,
      removeRadius := ReadBack(df6, parseDouble, st.removeRadius)), parseDouble, fixed);
  }

  /** Reading a log that starts with the block written for st, and whose
      later lines hold no marker, from preferences s0 gives BlockResult. */
  lemma {:induction false} BlockReads(startDate: string, name: string, multiSeries: bool, series: int,
      st: Settings, rest: seq<string>, s0: Settings, df6: Formatter, parseDouble: Parser, fixed: bool)
    requires Loggable(st, df6, parseDouble) && Unmarked(startDate) && Unmarked(name)
    requires forall j | 0 <= j < |rest| :: Unmarked(rest[j])
    requires IsCustom(st) ==> fixed
    ensures ReadFrom(SettingsBlock(startDate, name, multiSeries, series, st, df6) + rest, 0, s0, parseDouble, fixed) ==
      Loaded(BlockResult(s0, st, df6, parseDouble))
  {
    var block := SettingsBlock(startDate, name, multiSeries, series, st, df6);
    var lines := block + rest;
    assert lines[..12] == block;
    assert forall j | 12 <= j < |lines| :: lines[j] == rest[j - 12];
    BlockLines(lines, startDate, name, multiSeries, series, st, df6);
    FirstHalfReads(lines, startDate, name, multiSeries, series, st, s0, df6, parseDouble, fixed);
    var a5 := s0.(channelID := st.channelID,
      includeDuplicateChannel := s0.includeDuplicateChannel || st.includeDuplicateChannel,
      excludeZeroRegions := s0.excludeZeroRegions || st.excludeZeroRegions,
      closeGapsRadius := if st.excludeZeroRegions then ReadBack(df6, parseDouble, st.closeGapsRadius) else s0.closeGapsRadius);
    SecondHalfReads(lines, st, a5, df6, parseDouble, fixed);
  }

  /** A decimal that `df6` writes and `parseDouble` reads back as itself. */
  predicate Exact(df6: Formatter, parseDouble: Parser, v: real)
  {
    Numeric(df6(v)) && parseDouble(NormalizeDecimal(df6(v))) == Some(v)
  }

  /** Round trip of the corrected reader: loading the block written for st
      gives back st's preferences. The two decimals the block leaves out,
      the gap radius when zero regions are not excluded and the custom
      threshold of an auto-threshold method, keep the values they had. */
  lemma {:induction false} RoundTrip(startDate: string, name: string, multiSeries: bool, series: int,
      st: Settings, rest: seq<string>, s: Settings, df6: Formatter, parseDouble: Parser)
    requires IntMin <= st.channelID <= IntMax && st.chosenAlgorithm in Algorithms
    requires Exact(df6, parseDouble, st.removeRadius)
    requires st.excludeZeroRegions ==> Exact(df6, parseDouble, st.closeGapsRadius)
    requires IsCustom(st) ==> Exact(df6, parseDouble, st.customThr)
    requires Unmarked(startDate) && Unmarked(name) && forall j | 0 <= j < |rest| :: Unmarked(rest[j])
    ensures ReadSettings(SettingsBlock(startDate, name, multiSeries, series, st, df6) + rest, s, parseDouble, true) ==
      Loaded(st.(closeGapsRadius := if st.excludeZeroRegions then st.closeGapsRadius else s.closeGapsRadius,
        customThr := if IsCustom(st) then st.customThr else s.customThr))
  {
    BlockReads(startDate, name, multiSeries, series, st, rest, Cleared(s, true), df6, parseDouble, true);
  }

  /** As written, a log of a custom threshold makes the reader throw: the
      segmentation line of a custom threshold reaches `algorithm[18]`. */
  lemma {:induction false} CustomLogCrashes(startDate: string, name: string, multiSeries: bool, series: int,
      st: Settings, rest: seq<string>, s: Settings, df6: Formatter, parseDouble: Parser)
    requires Loggable(st, df6, parseDouble) && IsCustom(st) && Unmarked(startDate) && Unmarked(name)
    ensures ReadSettings(SettingsBlock(startDate, name, multiSeries, series, st, df6) + rest, s, parseDouble, false) == Crashed
  {
    var block := SettingsBlock(startDate, name, multiSeries, series, st, df6);
    var lines := block + rest;
    assert lines[..12] == block;
    BlockLines(lines, startDate, name, multiSeries, series, st, df6);
    var s0 := Cleared(s, false);
    FirstHalfReads(lines, startDate, name, multiSeries, series, st, s0, df6, parseDouble, false);
    var a5 := s0.(channelID := st.channelID,
      includeDuplicateChannel := s0.includeDuplicateChannel || st.includeDuplicateChannel,
      excludeZeroRegions := s0.excludeZeroRegions || st.excludeZeroRegions,
      closeGapsRadius := if st.excludeZeroRegions then ReadBack(df6, parseDouble, st.closeGapsRadius) else s0.closeGapsRadius);
    CustomLineReads(a5, parseDouble);
  }

  /** As written, the reader never clears `fillHoles`: loaded into fresh
      preferences, a log written without hole filling turns it on. */
  lemma {:induction false} FillHolesNotCleared(startDate: string, name: string, multiSeries: bool, series: int,
      st: Settings, rest: seq<string>, df6: Formatter, parseDouble: Parser)
    requires Loggable(st, df6, parseDouble) && !IsCustom(st) && !st.fillHoles
    requires Unmarked(startDate) && Unmarked(name) && forall j | 0 <= j < |rest| :: Unmarked(rest[j])
    ensures var r := ReadSettings(SettingsBlock(startDate, name, multiSeries, series, st, df6) + rest, Defaults, parseDouble, false);
      r.Loaded? && r.st.fillHoles != st.fillHoles
  {
    BlockReads(startDate, name, multiSeries, series, st, rest, Cleared(Defaults, false), df6, parseDouble, false);
  }

  /** With the corrected reader, loading the same log a second time changes
      nothing. */
  lemma {:induction false} LoadTwice(startDate: string, name: string, multiSeries: bool, series: int,
      st: Settings, rest: seq<string>, s: Settings, df6: Formatter, parseDouble: Parser)
    requires Loggable(st, df6, parseDouble) && Unmarked(startDate) && Unmarked(name)
    requires forall j | 0 <= j < |rest| :: Unmarked(rest[j])
    ensures var log := SettingsBlock(startDate, name, multiSeries, series, st, df6) + rest;
      var r := ReadSettings(log, s, parseDouble, true);
      r.Loaded? && ReadSettings(log, r.st, parseDouble, true) == r
  {
    var r := BlockResult(Cleared(s, true), st, df6, parseDouble);
    BlockReads(startDate, name, multiSeries, series, st, rest, Cleared(s, true), df6, parseDouble, true);
    BlockReads(startDate, name, multiSeries, series, st, rest, Cleared(r, true), df6, parseDouble, true);
    assert BlockResult(Cleared(r, true), st, df6, parseDouble) == r;
  }
}
