/** `importSettings` as the plug-in runs it: a loop over the lines of a
    log that assigns the plug-in's preference fields in place. */
module SettingsImport {
  import opened Wrappers
  import opened Text
  import opened Preferences
  import opened SettingsLog

  /** The preference fields of the plug-in object. */
  class Preparator {
    var channelID: int
    var includeDuplicateChannel: bool
    var excludeZeroRegions: bool
    var closeGapsRadius: real
    var removeRadius: real
    var chosenAlgorithm: string
    var customThr: real
    var despeckle: bool
    var fillHoles: bool

    /** The preferences the fields hold. */
    function Current(): Settings
      reads this
    {
      Settings(channelID, includeDuplicateChannel, excludeZeroRegions, closeGapsRadius, removeRadius,
        chosenAlgorithm, customThr, despeckle, fillHoles)
    }

    /** The field initialisers of the plug-in class. */
    constructor ()
      ensures Current() == Defaults
    {
      channelID := 1;
      includeDuplicateChannel := true;
      excludeZeroRegions := true;
      closeGapsRadius := 5.0;
      removeRadius := 20.0;
      chosenAlgorithm := "Triangle";
      customThr := 0.0;
      despeckle := true;
      fillHoles := true;
    }

    /** The channel test on one line; false when the number does not parse. */
    method ReadChannelOf(line: string) returns (ok: bool)
      modifies this
      ensures ok == ReadChannel(line, old(Current())).Some?
      ensures ok ==> Current() == ReadChannel(line, old(Current())).value
    {
      ok := true;
      if Contains(line, ChannelMarker) {
        var n := ParseInt(ValueText(line));
        if n.None? {
          return false;
        }
        channelID := n.value;
      }
    }

    /** The gap-closing test on one line; false when the number does not
        parse. */
    method ReadExcludeOf(line: string, parseDouble: Parser) returns (ok: bool)
      modifies this
      ensures ok == ReadExclude(line, old(Current()), parseDouble).Some?
      ensures ok ==> Current() == ReadExclude(line, old(Current()), parseDouble).value
    {
      ok := true;
      if Contains(line, ExcludeMarker) {
        excludeZeroRegions := true;
        var v := parseDouble(ValueText(line));
        if v.None? {
          return false;
        }
        closeGapsRadius := v.value;
      }
    }

    /** The tests before the segmentation test, on one line. */
    method ReadHeadOf(line: string, parseDouble: Parser) returns (ok: bool)
      modifies this
      ensures ok == ReadHead(line, old(Current()), parseDouble).Some?
      ensures ok ==> Current() == ReadHead(line, old(Current()), parseDouble).value
    {
      ok := ReadChannelOf(line);
      if !ok {
        return;
      }
      if Contains(line, DuplicateMarker) {
        includeDuplicateChannel := true;
      }
      ok := ReadExcludeOf(line, parseDouble);
    }

    /** The tests after the segmentation test, on one line. */
    method ReadTailOf(line: string, parseDouble: Parser) returns (ok: bool)
      modifies this
      ensures ok == ReadTail(line, old(Current()), parseDouble).Some?
      ensures ok ==> Current() == ReadTail(line, old(Current()), parseDouble).value
    {
      if Contains(line, RadiusMarker) {
        var v := parseDouble(ValueText(line));
        if v.None? {
          return false;
        }
        removeRadius := v.value;
      }
      if Contains(line, DespeckleMarker) {
        despeckle := true;
      }
      if Contains(line, FillHolesMarker) {
        fillHoles := true;
      }
      ok := true;
    }

    /** All tests on a line that is not a custom segmentation line. */
    method ReadLineOf(line: string, parseDouble: Parser) returns (ok: bool)
      modifies this
      ensures ok == ReadLine(line, old(Current()), parseDouble).Some?
      ensures ok ==> Current() == ReadLine(line, old(Current()), parseDouble).value
    {
      ok := ReadHeadOf(line, parseDouble);
      if !ok {
        return;
      }
      if Contains(line, SegmentationMarker) && Contains(line, ApplyingMarker) {
        var found := FindAlgorithm(line);
        if found.Some? {
          chosenAlgorithm := found.value;
        }
      }
      ok := ReadTailOf(line, parseDouble);
    }

    /** The corrected handling of a custom segmentation line at i, which
        also consumes the line after it; `done` is the outcome when the
        reading stops here. */
    method ReadCustomAt(lines: seq<string>, i: nat, parseDouble: Parser) returns (done: Option<ReadOutcome>)
      requires i < |lines| && IsCustomLine(lines[i])
      modifies this
      ensures done.Some? ==> !done.value.Loaded?
      ensures done.Some? ==> done.value == ReadFrom(lines, i, old(Current()), parseDouble, true)
      ensures done.None? ==> i + 2 <= |lines|
      ensures done.None? ==>
        ReadFrom(lines, i + 2, Current(), parseDouble, true) == ReadFrom(lines, i, old(Current()), parseDouble, true)
    {
      var ok := ReadHeadOf(lines[i], parseDouble);
      if !ok {
        return Some(Crashed);
      }
      chosenAlgorithm := Custom;
      if i + 1 == |lines| {
        return Some(Crashed);
      }
      var line := lines[i + 1];
      if !Contains(line, CustomValueMarker) {
        return Some(NotLoaded);
      }
      var v := parseDouble(ValueText(line));
      if v.None? {
        return Some(Crashed);
      }
      customThr := v.value;
      ok := ReadTailOf(line, parseDouble);
      done := if ok then None else Some(Crashed);
    }

    /** One pass of the reading loop at line i: either the reading stops
        there with outcome `done`, or it goes on at line `next` with the
        fields updated. */
    method Step(lines: seq<string>, i: nat, parseDouble: Parser, fixed: bool) returns (next: nat, done: Option<ReadOutcome>)
      requires i < |lines|
      modifies this
      ensures done.Some? ==> !done.value.Loaded?
      ensures done.Some? ==> done.value == ReadFrom(lines, i, old(Current()), parseDouble, fixed)
      ensures done.None? ==> i < next <= |lines|
      ensures done.None? ==>
        ReadFrom(lines, next, Current(), parseDouble, fixed) == ReadFrom(lines, i, old(Current()), parseDouble, fixed)
    {
      next := i + 1;
      if !IsCustomLine(lines[i]) {
        var ok := ReadLineOf(lines[i], parseDouble);
        done := if ok then None else Some(Crashed);
      } else if !fixed {
        var ok := ReadHeadOf(lines[i], parseDouble);
        done := Some(Crashed);
      } else {
        done := ReadCustomAt(lines, i, parseDouble);
        next := i + 2;
      }
    }

    /** `importSettings` on the lines of a log: the outcome is the one the
        reading loop specifies, and a successful load leaves its preferences
        in the fields. With `fixed` unset it is the code as written; with
        `fixed` set, the custom threshold is loaded and `fillHoles` is
        cleared with the other flags. */
    method ImportSettings(lines: seq<string>, parseDouble: Parser, fixed: bool) returns (r: ReadOutcome)
      modifies this
      ensures r == ReadSettings(lines, old(Current()), parseDouble, fixed)
      ensures r.Loaded? ==> Current() == r.st
    {
      excludeZeroRegions := false;
      includeDuplicateChannel := false;
      despeckle := false;
      if fixed {
        fillHoles := false;
      }
      var i: nat := 0;
      while i < |lines|
        invariant i <= |lines|
        invariant ReadFrom(lines, i, Current(), parseDouble, fixed) == ReadSettings(lines, old(Current()), parseDouble, fixed)
        decreases |lines| - i
      {
        var next, done := Step(lines, i, parseDouble, fixed);
        if done.Some? {
          return done.value;
        }
        i := next;
      }
      r := Loaded(Current());
    }
  }

  /** The search loop over the method names: the first one the line holds. */
  method FindAlgorithm(line: string) returns (found: Option<string>)
    ensures found == FirstAlgorithm(line, 0)
  {
    found := None;
    for a := 0 to |Algorithms|
      invariant FirstAlgorithm(line, 0) == FirstAlgorithm(line, a)
    {
      if Contains(line, Algorithms[a]) {
        found := Some(Algorithms[a]);
        break;
      }
    }
  }
}
