/** The processing preferences of the plug-in: the fields the dialog or the
    settings reader fill in and the pipeline and settings writer read. */
module Preferences {

  /** The segmentation methods offered, in dialog order; the last is the
      user-supplied threshold. */
  const Algorithms: seq<string> := ["Default", "IJ_IsoData", "Huang", "Intermodes", "IsoData", "Li",
    "MaxEntropy", "Mean", "MinError", "Minimum", "Moments", "Otsu", "Percentile", "RenyiEntropy",
    "Shanbhag", "Triangle", "Yen", "CUSTOM threshold"]

  const Custom: string := "CUSTOM threshold"

  datatype Settings = Settings(
    channelID: int,
    includeDuplicateChannel: bool,
    excludeZeroRegions: bool,
    closeGapsRadius: real,
    removeRadius: real,
    chosenAlgorithm: string,
    customThr: real,
    despeckle: bool,
    fillHoles: bool)

  /** The values the fields start with. */
  const Defaults: Settings := Settings(1, true, true, 5.0, 20.0, "Triangle", 0.0, true, true)

  predicate IsCustom(st: Settings)
  {
    st.chosenAlgorithm == Custom
  }
}
