/** The list of tasks of one run: one entry per image file, expanded into
    one entry per series for multi-series files opened through Bio-Formats,
    the checks that reject a task before it is processed, and the prefix of
    the task's output files. */
module Tasks {
  import opened Wrappers
  import opened Text

  /** One index of the four parallel arrays `name`, `dir`, `series` and
      `totSeries` of `run`; entries the series splice leaves unwritten are
      Java's defaults, null and 0. */
  datatype Task = Task(name: Option<string>, dir: Option<string>, series: int, totSeries: int)

  const NullTask := Task(None, None, 0, 0)

  /** String concatenation of a possibly null string: null prints "null". */
  function JavaString(o: Option<string>): string
  {
    if o.None? then "null" else o.value
  }

  /** The tasks of the file dialog before series are screened: series 0 of
      a single-series file each. */
  function InitialTasks(names: seq<string>, dirs: seq<string>): (r: seq<Task>)
    requires |dirs| == |names|
    ensures |r| == |names|
    ensures forall q | 0 <= q < |r| :: r[q].name == Some(names[q]) && r[q].dir == Some(dirs[q])
    ensures forall q | 0 <= q < |r| :: r[q].series == 0 && r[q].totSeries == 1
  {
    seq(|names|, q requires 0 <= q < |names| => Task(Some(names[q]), Some(dirs[q]), 0, 1))
  }

  predicate NamesPresent(ts: seq<Task>)
  {
    forall q | 0 <= q < |ts| :: ts[q].name.Some?
  }

  /** What `BF.openImagePlus` does with a file when all its series are
      requested: it opens a number of series, or it throws, with or without
      a cause (the handler dereferences the cause). */
  datatype Opening = Opened(count: nat) | FailedWithCause | FailedWithoutCause

  /** The extension test of the series screen, on a name holding a dot. */
  predicate IsTiffName(nm: string)
    requires '.' in nm
  {
    var ext := nm[LastIndexOf(nm, '.')..];
    ext == ".tif" || ext == ".TIF" || ext == ".tiff" || ext == ".TIFF"
  }

  /** The comma-delimited token of the 0-based series j, numbered from 1. */
  function SeriesToken(j: int): string
  {
    "," + IntToString(j + 1) + ","
  }

  /** The list with a comma added at each end. */
  function Delimited(loadSeries: string): (s: string)
    ensures |s| == |loadSeries| + 2 && s[0] == ',' && s[|s| - 1] == ','
  {
    "," + loadSeries + ","
  }

  lemma DelimitedCommas(loadSeries: string)
    ensures CountChar(Delimited(loadSeries), ',') == CountChar(loadSeries, ',') + 2
  {
    CountCharConcat(",", loadSeries, ',');
    CountCharConcat("," + loadSeries, ",", ',');
  }

  /** Series j is requested by a list like "1,3,4". */
  predicate SeriesSelected(loadSeries: string, j: int)
  {
    Contains(Delimited(loadSeries), SeriesToken(j))
  }

  /** The series test of a list as a function of the series. */
  function Selection(loadSeries: string): int -> bool
  {
    j => SeriesSelected(loadSeries, j)
  }

  /** The tasks of the selected series among the first m of a file with
      count series, in series order. */
  function ListedTasks(t: Task, selected: int -> bool, m: nat, count: nat): seq<Task>
  {
    if m == 0 then []
    else
      var tail := if selected(m - 1) then [Task(t.name, t.dir, m - 1, count)] else [];
      ListedTasks(t, selected, m - 1, count) + tail
  }

  /** The null entries a splice leaves unwritten. */
  function Nulls(n: nat): (r: seq<Task>)
    ensures |r| == n && forall q | 0 <= q < n :: r[q] == NullTask
  {
    seq(n, _ => NullTask)
  }

  /** One task per series of a file with count series. */
  function AllSeriesTasks(t: Task, count: nat): seq<Task>
  {
    seq(count, j requires 0 <= j < count => Task(t.name, t.dir, j, count))
  }

  /** The entries that replace task t after the series screen; None when
      the plug-in fails: a name without a dot (the extension is taken with
      `substring(-1)`) or an exception without a cause. When `fixed` is
      set, a list of series yields only the series it selects; otherwise,
      as the plug-in does, it always yields one entry per list item, and
      the unused ones are left null. */
  function ExpandTask(t: Task, loadSeries: string, open: string -> Opening, fixed: bool): Option<seq<Task>>
    requires t.name.Some?
  {
    var nm := t.name.value;
    if '.' !in nm then None
    else if IsTiffName(nm) then Some([t])
    else match open(JavaString(t.dir) + nm)
      case FailedWithoutCause => None
      case FailedWithCause => Some([t])
      case Opened(count) =>
        if !(count > 1 || loadSeries != "ALL") then Some([t])
        else if loadSeries == "ALL" then Some(AllSeriesTasks(t, count))
        else
          var listed := ListedTasks(t, Selection(loadSeries), count, count);
          if fixed then Some(listed)
          else
            ListedTasksBound(t, loadSeries, count);
            Some(listed + Nulls(CountChar(loadSeries, ',') + 1 - |listed|))
  }

  /** The whole series screen: every task expanded in place. */
  function ExpandAll(ts: seq<Task>, loadSeries: string, open: string -> Opening, fixed: bool): Option<seq<Task>>
    requires NamesPresent(ts)
    decreases |ts|
  {
    if |ts| == 0 then Some([])
    else match ExpandTask(ts[0], loadSeries, open, fixed)
      case None => None
      case Some(x) =>
        match ExpandAll(ts[1..], loadSeries, open, fixed)
        case None => None
        case Some(y) => Some(x + y)
  }

  // ---------------------------------------------------------------------
  // A list of n items never selects more than n series
  // ---------------------------------------------------------------------

  /** Where the token of a requested series occurs in the delimited list. */
  ghost function TokenPosition(loadSeries: string, j: int): (p: int)
    requires SeriesSelected(loadSeries, j)
    ensures 0 <= p <= |Delimited(loadSeries)| - |SeriesToken(j)|
    ensures StartsWith(Delimited(loadSeries)[p..], SeriesToken(j))
  {
    var s := Delimited(loadSeries);
    var k :| 0 <= k <= |s| - |SeriesToken(j)| && StartsWith(s[k..], SeriesToken(j));
    k
  }

  /** A token ",n," at position p puts n right after the comma at p and a
      comma right after n. */
  lemma TokenAt(s: string, p: int, n: string)
    requires 0 <= p <= |s| - |"," + n + ","| && StartsWith(s[p..], "," + n + ",")
    ensures s[p] == ',' && s[p + 1..][..|n|] == n && s[p + 1..][|n|] == ','
  {
    assert s[p..][..|n| + 2] == "," + n + ",";
    assert s[p + 1..][..|n|] == s[p..][..|n| + 2][1..|n| + 1];
  }

  /** The number written right after position p of the delimited list. */
  ghost function NumberAfter(loadSeries: string, p: int): nat
    requires 0 <= p < |Delimited(loadSeries)|
  {
    var rest := Delimited(loadSeries)[p + 1..];
    DigitsValue(rest[..DigitRun(rest)])
  }

  /** The token of series j is followed by the number j + 1, so tokens of
      different series sit at different commas. */
  lemma NumberAfterToken(loadSeries: string, j: int)
    requires 0 <= j && SeriesSelected(loadSeries, j)
    ensures NumberAfter(loadSeries, TokenPosition(loadSeries, j)) == j + 1
    ensures TokenPosition(loadSeries, j) < |Delimited(loadSeries)| - 1
    ensures Delimited(loadSeries)[TokenPosition(loadSeries, j)] == ','
  {
    var s := Delimited(loadSeries);
    var p := TokenPosition(loadSeries, j);
    var n := NatToString(j + 1);
    assert SeriesToken(j) == "," + n + ",";
    TokenAt(s, p, n);
    var rest := s[p + 1..];
    DigitRunPrefix(rest, n);
    DigitsValueOfNatToString(j + 1);
  }

  /** The commas at which the requested series among the first m match. */
  ghost function TokenPositions(loadSeries: string, m: nat): set<int>
  {
    if m == 0 then {}
    else if SeriesSelected(loadSeries, m - 1) then TokenPositions(loadSeries, m - 1) + {TokenPosition(loadSeries, m - 1)}
    else TokenPositions(loadSeries, m - 1)
  }

  /** Each such comma is a comma of the delimited list other than its last
      character, followed by a series number up to m. */
  lemma {:induction false} TokenPositionsWithin(loadSeries: string, m: nat)
    ensures forall p | p in TokenPositions(loadSeries, m) ::
      0 <= p < |Delimited(loadSeries)| - 1 && Delimited(loadSeries)[p] == ',' && NumberAfter(loadSeries, p) <= m
  {
    if m > 0 {
      TokenPositionsWithin(loadSeries, m - 1);
      if SeriesSelected(loadSeries, m - 1) {
        NumberAfterToken(loadSeries, m - 1);
      }
    }
  }

  /** There are as many such commas as listed tasks. */
  lemma {:induction false} TokenPositionsCount(t: Task, loadSeries: string, m: nat, count: nat)
    ensures |TokenPositions(loadSeries, m)| == |ListedTasks(t, Selection(loadSeries), m, count)|
  {
    if m > 0 {
      TokenPositionsCount(t, loadSeries, m - 1, count);
      ListedTasksStep(t, Selection(loadSeries), m, count);
      if SeriesSelected(loadSeries, m - 1) {
        TokenPositionsWithin(loadSeries, m - 1);
        NumberAfterToken(loadSeries, m - 1);
        assert TokenPosition(loadSeries, m - 1) !in TokenPositions(loadSeries, m - 1);
      }
    }
  }

  /** A subset is no larger than its superset. */
  lemma SubsetSize(a: set<int>, b: set<int>)
    requires a <= b
    ensures |a| <= |b|
  {
    assert b == a + (b - a);
    assert a * (b - a) == {};
  }

  /** At most `countMatches(loadSeries, ",") + 1` series are selected, so
      the list entries `i+k` the plug-in writes stay inside the room it
      makes for them. */
  lemma ListedTasksBound(t: Task, loadSeries: string, count: nat)
    ensures |ListedTasks(t, Selection(loadSeries), count, count)| <= CountChar(loadSeries, ',') + 1
  {
    var s := Delimited(loadSeries);
    TokenPositionsCount(t, loadSeries, count, count);
    TokenPositionsWithin(loadSeries, count);
    DelimitedCommas(loadSeries);
    CountCharIsPositions(s, ',');
    var u := Positions(s, ',') - {|s| - 1};
    assert |u| == CountChar(loadSeries, ',') + 1;
    assert TokenPositions(loadSeries, count) <= u;
    SubsetSize(TokenPositions(loadSeries, count), u);
  }

  /** Listing one more series appends that series when it is selected. */
  lemma ListedTasksStep(t: Task, selected: int -> bool, m: nat, count: nat)
    requires m > 0
    ensures ListedTasks(t, selected, m, count) ==
      ListedTasks(t, selected, m - 1, count) + (if selected(m - 1) then [Task(t.name, t.dir, m - 1, count)] else [])
  {
  }

  /** Each listed task names the file and its series count, and is a
      selected series among the first m. */
  lemma {:induction false} ListedTasksElements(t: Task, selected: int -> bool, m: nat, count: nat)
    ensures forall q | 0 <= q < |ListedTasks(t, selected, m, count)| ::
      var e := ListedTasks(t, selected, m, count)[q];
      e.name == t.name && e.dir == t.dir && e.totSeries == count &&
      0 <= e.series < m && selected(e.series)
  {
    if m > 0 {
      ListedTasksElements(t, selected, m - 1, count);
      ListedTasksStep(t, selected, m, count);
      var prev := ListedTasks(t, selected, m - 1, count);
      var l := ListedTasks(t, selected, m, count);
      forall q | 0 <= q < |l|
        ensures l[q].name == t.name && l[q].dir == t.dir && l[q].totSeries == count
        ensures 0 <= l[q].series < m && selected(l[q].series)
      {
        if q < |prev| {
          assert l[q] == prev[q];
        }
      }
    }
  }

  /** The listed series increase strictly. */
  lemma {:induction false} ListedTasksOrdered(t: Task, selected: int -> bool, m: nat, count: nat)
    ensures forall q1, q2 | 0 <= q1 < q2 < |ListedTasks(t, selected, m, count)| ::
      ListedTasks(t, selected, m, count)[q1].series < ListedTasks(t, selected, m, count)[q2].series
  {
    if m > 0 {
      ListedTasksOrdered(t, selected, m - 1, count);
      ListedTasksElements(t, selected, m - 1, count);
      ListedTasksStep(t, selected, m, count);
      var prev := ListedTasks(t, selected, m - 1, count);
      var l := ListedTasks(t, selected, m, count);
      forall q1, q2 | 0 <= q1 < q2 < |l|
        ensures l[q1].series < l[q2].series
      {
        assert l[q1] == prev[q1];
        if q2 < |prev| {
          assert l[q2] == prev[q2];
        }
      }
    }
  }

  /** Every selected series among the first m is listed. */
  lemma {:induction false} ListedTasksComplete(t: Task, selected: int -> bool, m: nat, count: nat)
    ensures forall j | 0 <= j < m && selected(j) ::
      exists q | 0 <= q < |ListedTasks(t, selected, m, count)| :: ListedTasks(t, selected, m, count)[q].series == j
  {
    if m > 0 {
      ListedTasksComplete(t, selected, m - 1, count);
      ListedTasksStep(t, selected, m, count);
      var prev := ListedTasks(t, selected, m - 1, count);
      var l := ListedTasks(t, selected, m, count);
      forall j | 0 <= j < m && selected(j)
        ensures exists q | 0 <= q < |l| :: l[q].series == j
      {
        if j < m - 1 {
          var q :| 0 <= q < |prev| && prev[q].series == j;
          assert l[q] == prev[q];
        } else {
          assert l[|prev|].series == j;
        }
      }
    }
  }

  /** The screen fails exactly on a name without a dot or on an exception
      without a cause; under the plug-in's sizing every task becomes at
      least one entry; each entry names the task's file or, only for a list
      of series under the plug-in's sizing, is null. */
  lemma ExpandTaskMeaning(t: Task, loadSeries: string, open: string -> Opening, fixed: bool)
    requires t.name.Some?
    ensures ExpandTask(t, loadSeries, open, fixed).None? <==>
      '.' !in t.name.value ||
      (!IsTiffName(t.name.value) && open(JavaString(t.dir) + t.name.value) == FailedWithoutCause)
    ensures ExpandTask(t, loadSeries, open, fixed).Some? && !fixed ==> |ExpandTask(t, loadSeries, open, fixed).value| >= 1
    ensures ExpandTask(t, loadSeries, open, fixed).Some? ==>
      forall q | 0 <= q < |ExpandTask(t, loadSeries, open, fixed).value| ::
        ExpandTask(t, loadSeries, open, fixed).value[q].name == t.name ||
        (!fixed && loadSeries != "ALL" && ExpandTask(t, loadSeries, open, fixed).value[q] == NullTask)
  {
    var nm := t.name.value;
    if '.' in nm && !IsTiffName(nm) && open(JavaString(t.dir) + nm).Opened? {
      var count := open(JavaString(t.dir) + nm).count;
      if (count > 1 || loadSeries != "ALL") && loadSeries != "ALL" {
        ListedTasksElements(t, Selection(loadSeries), count, count);
        ListedTasksBound(t, loadSeries, count);
        var listed := ListedTasks(t, Selection(loadSeries), count, count);
        var nulls := Nulls(CountChar(loadSeries, ',') + 1 - |listed|);
        if !fixed {
          var r := listed + nulls;
          assert ExpandTask(t, loadSeries, open, fixed).value == r;
          forall q | 0 <= q < |r|
            ensures r[q].name == t.name || r[q] == NullTask
          {
            if q >= |listed| {
              assert r[q] == nulls[q - |listed|];
            }
          }
        }
      }
    }
  }

  /** A task with count > 1 series becomes count tasks, series 0 to
      count - 1, under "ALL". */
  lemma ExpandTaskAllSeries(t: Task, open: string -> Opening, fixed: bool)
    requires t.name.Some? && '.' in t.name.value && !IsTiffName(t.name.value)
    requires open(JavaString(t.dir) + t.name.value).Opened?
    ensures var count := open(JavaString(t.dir) + t.name.value).count;
      var r := ExpandTask(t, "ALL", open, fixed);
      r.Some? &&
      |r.value| == (if count > 1 then count else 1) &&
      forall q | 0 <= q < |r.value| :: r.value[q].name == t.name &&
        r.value[q].series == (if count > 1 then q else t.series) &&
        r.value[q].totSeries == (if count > 1 then count else t.totSeries)
  {
  }

  /** Under the plug-in's sizing a list of series gives exactly one entry
      per list item. */
  lemma ExpandTaskListLength(t: Task, loadSeries: string, open: string -> Opening)
    requires t.name.Some? && '.' in t.name.value && !IsTiffName(t.name.value)
    requires open(JavaString(t.dir) + t.name.value).Opened? && loadSeries != "ALL"
    ensures ExpandTask(t, loadSeries, open, false).Some?
    ensures |ExpandTask(t, loadSeries, open, false).value| == CountChar(loadSeries, ',') + 1
  {
    var count := open(JavaString(t.dir) + t.name.value).count;
    ListedTasksBound(t, loadSeries, count);
  }

  /** If one task fails, the whole screen fails. */
  lemma {:induction false} ExpandAllCrashes(ts: seq<Task>, i: nat, loadSeries: string, open: string -> Opening, fixed: bool)
    requires NamesPresent(ts) && i < |ts|
    requires ExpandTask(ts[i], loadSeries, open, fixed).None?
    ensures ExpandAll(ts, loadSeries, open, fixed).None?
  {
    if i > 0 {
      assert ts[1..][i - 1] == ts[i];
      ExpandAllCrashes(ts[1..], i - 1, loadSeries, open, fixed);
    }
  }

  /** The screen never drops a task. */
  lemma {:induction false} ExpandAllLength(ts: seq<Task>, loadSeries: string, open: string -> Opening, fixed: bool)
    requires NamesPresent(ts) && ExpandAll(ts, loadSeries, open, fixed).Some? && !fixed
    ensures |ExpandAll(ts, loadSeries, open, fixed).value| >= |ts|
  {
    if |ts| > 0 {
      ExpandTaskMeaning(ts[0], loadSeries, open, fixed);
      ExpandAllLength(ts[1..], loadSeries, open, fixed);
    }
  }

  /** With the list sized by the series it selects, no task is null. */
  lemma {:induction false} FixedExpansionHasNames(ts: seq<Task>, loadSeries: string, open: string -> Opening)
    requires NamesPresent(ts) && ExpandAll(ts, loadSeries, open, true).Some?
    ensures NamesPresent(ExpandAll(ts, loadSeries, open, true).value)
  {
    if |ts| > 0 {
      ExpandTaskMeaning(ts[0], loadSeries, open, true);
      FixedExpansionHasNames(ts[1..], loadSeries, open);
      var x := ExpandTask(ts[0], loadSeries, open, true).value;
      var y := ExpandAll(ts[1..], loadSeries, open, true).value;
      assert ExpandAll(ts, loadSeries, open, true).value == x + y;
    }
  }

  /** The list "1,3" requests series 1 and not series 2. */
  lemma ListOneThree()
    ensures SeriesSelected("1,3", 0) && !SeriesSelected("1,3", 1)
    ensures CountChar("1,3", ',') == 1
  {
    assert IntToString(1) == "1" && IntToString(2) == "2";
    assert "," + "1,3" + "," == ",1,3,";
    assert SeriesToken(0) == ",1," && SeriesToken(1) == ",2,";
    ContainsAt(",1,3,", ",1,", 0);
    LacksCharNotContains(",1,3,", ",2,", '2');
  }

  /** "a.czi" goes to Bio-Formats. */
  lemma CziIsNoTiff()
    ensures '.' in "a.czi" && !IsTiffName("a.czi")
  {
    assert "a.czi"[1] == '.';
    assert LastIndexOf("a.czi", '.') == 1;
    assert "a.czi"[1..] == ".czi";
  }

  /** "1,3" on a file with two series: series 1 is loaded and the second
      list entry stays null, which the task loop later dereferences. */
  lemma UnmatchedSeriesLeavesNull(open: string -> Opening)
    requires forall path :: open(path) == Opened(2)
    ensures ExpandTask(Task(Some("a.czi"), Some("/d/"), 0, 1), "1,3", open, false)
      == Some([Task(Some("a.czi"), Some("/d/"), 0, 2), NullTask])
  {
    var t := Task(Some("a.czi"), Some("/d/"), 0, 1);
    CziIsNoTiff();
    ListOneThree();
    assert open(JavaString(t.dir) + "a.czi") == Opened(2);
    var listed := ListedTasks(t, Selection("1,3"), 2, 2);
    assert listed == [Task(Some("a.czi"), Some("/d/"), 0, 2)];
    var nulls := Nulls(CountChar("1,3", ',') + 1 - |listed|);
    assert nulls == [NullTask];
    assert ExpandTask(t, "1,3", open, false) == Some(listed + nulls);
    assert listed + nulls == [Task(Some("a.czi"), Some("/d/"), 0, 2), NullTask];
  }

  // ---------------------------------------------------------------------
  // The series screen as the plug-in runs it
  // ---------------------------------------------------------------------

  /** The splice of the parallel arrays: entry i is replaced by the entries
      ins followed by null entries up to gap entries, in a new array of
      length |ts| + gap - 1. */
  method Splice(ts: seq<Task>, i: nat, ins: seq<Task>, gap: nat) returns (r: seq<Task>)
    requires i < |ts| && 1 <= gap && |ins| <= gap
    ensures r == ts[..i] + ins + Nulls(gap - |ins|) + ts[i + 1..]
  {
    var temp := new Task[|ts| + gap - 1](_ => NullTask);
    for j := 0 to i
      invariant forall q | 0 <= q < j :: temp[q] == ts[q]
      invariant forall q | j <= q < temp.Length :: temp[q] == NullTask
    {
      temp[j] := ts[j];
    }
    for j := 0 to |ins|
      invariant forall q | 0 <= q < i :: temp[q] == ts[q]
      invariant forall q | i <= q < i + j :: temp[q] == ins[q - i]
      invariant forall q | i + j <= q < temp.Length :: temp[q] == NullTask
    {
      temp[i + j] := ins[j];
    }
    for j := i + 1 to |ts|
      invariant forall q | 0 <= q < i :: temp[q] == ts[q]
      invariant forall q | i <= q < i + |ins| :: temp[q] == ins[q - i]
      invariant forall q | i + |ins| <= q < i + gap :: temp[q] == NullTask
      invariant forall q | i + gap <= q < j + gap - 1 :: temp[q] == ts[q - gap + 1]
      invariant forall q | j + gap - 1 <= q < temp.Length :: temp[q] == NullTask
    {
      temp[j + gap - 1] := ts[j];
    }
    r := temp[..];
    var expected := ts[..i] + ins + Nulls(gap - |ins|) + ts[i + 1..];
    assert |r| == |expected|;
    forall q | 0 <= q < |r|
      ensures r[q] == expected[q]
    {
      if q < i {
      } else if q < i + |ins| {
      } else if q < i + gap {
      } else {
        assert expected[q] == ts[i + 1..][q - i - gap];
      }
    }
  }

  /** The selection loop of a list of series: series j + 1 is taken when
      ",j+1," occurs in ",loadSeries,". */
  method SelectSeries(t: Task, loadSeries: string, count: nat) returns (listed: seq<Task>)
    ensures listed == ListedTasks(t, Selection(loadSeries), count, count)
  {
    listed := [];
    for j := 0 to count
      invariant listed == ListedTasks(t, Selection(loadSeries), j, count)
    {
      if !SeriesSelected(loadSeries, j) {
        continue;
      }
      listed := listed + [Task(t.name, t.dir, j, count)];
    }
  }

  /** Task i of ts replaced by the entries x. */
  function Replaced(ts: seq<Task>, i: nat, x: seq<Task>): seq<Task>
    requires i < |ts|
  {
    ts[..i] + x + ts[i + 1..]
  }

  /** One pass of the screen: task i of tasks is screened and, for a
      multi-series file, spliced. */
  method ScreenTask(tasks: seq<Task>, i: nat, loadSeries: string, open: string -> Opening) returns (r: Option<seq<Task>>)
    requires i < |tasks| && tasks[i].name.Some?
    ensures r == match ExpandTask(tasks[i], loadSeries, open, false)
      case None => None
      case Some(x) => Some(Replaced(tasks, i, x))
  {
    var t := tasks[i];
    var nm := t.name.value;
    assert tasks == Replaced(tasks, i, [t]);
    var dot := LastIndexOf(nm, '.');
    if dot < 0 {
      return None;
    }
    var ext := nm[dot..];
    if ext == ".tif" || ext == ".TIF" || ext == ".tiff" || ext == ".TIFF" {
      return Some(tasks);
    }
    match open(JavaString(t.dir) + nm)
    case FailedWithoutCause =>
      return None;
    case FailedWithCause =>
      return Some(tasks);
    case Opened(count) =>
      if !(count > 1 || loadSeries != "ALL") {
        return Some(tasks);
      }
      var spliced := SpliceSeries(tasks, i, loadSeries, count);
      return Some(spliced);
  }

  /** The splice of task i of a file with count series that is to be
      split: every series for "ALL", one entry per list item otherwise. */
  method SpliceSeries(tasks: seq<Task>, i: nat, loadSeries: string, count: nat) returns (spliced: seq<Task>)
    requires i < |tasks| && tasks[i].name.Some? && (count > 1 || loadSeries != "ALL")
    ensures loadSeries == "ALL" ==> spliced == Replaced(tasks, i, AllSeriesTasks(tasks[i], count))
    ensures loadSeries != "ALL" ==> (
      ListedTasksBound(tasks[i], loadSeries, count);
      var listed := ListedTasks(tasks[i], Selection(loadSeries), count, count);
      spliced == Replaced(tasks, i, listed + Nulls(CountChar(loadSeries, ',') + 1 - |listed|)))
  {
    var t := tasks[i];
    if loadSeries == "ALL" {
      var all := AllSeriesTasks(t, count);
      spliced := Splice(tasks, i, all, count);
      assert Nulls(count - |all|) == [];
      return;
    }
    var nrOfSeriesImages := CountChar(loadSeries, ',') + 1;
    var listed := SelectSeries(t, loadSeries, count);
    ListedTasksBound(t, loadSeries, count);
    spliced := Splice(tasks, i, listed, nrOfSeriesImages);
  }

  /** The series screen of the file-list variant: the tasks are visited
      from the last to the first, and each multi-series file is spliced
      into one task per series (all of them for "ALL", the listed ones
      otherwise). None is a failure of the plug-in. */
  method ScreenSeries(names: seq<string>, dirs: seq<string>, loadSeries: string, open: string -> Opening)
    returns (r: Option<seq<Task>>)
    requires |dirs| == |names|
    ensures r == ExpandAll(InitialTasks(names, dirs), loadSeries, open, false)
  {
    var initial := InitialTasks(names, dirs);
    var tasks := initial;
    var i := |initial|;
    assert initial[..i] == initial && initial[i..] == [];
    while i > 0
      invariant 0 <= i <= |initial|
      invariant ExpandAll(initial[i..], loadSeries, open, false).Some?
      invariant tasks == initial[..i] + ExpandAll(initial[i..], loadSeries, open, false).value
    {
      i := i - 1;
      ghost var rest := ExpandAll(initial[i + 1..], loadSeries, open, false).value;
      assert initial[i..][1..] == initial[i + 1..];
      assert tasks == initial[..i] + [initial[i]] + rest by {
        assert initial[..i + 1] == initial[..i] + [initial[i]];
      }
      var step := ScreenTask(tasks, i, loadSeries, open);
      if step.None? {
        ExpandAllCrashes(initial, i, loadSeries, open, false);
        return None;
      }
      ExpandSplice(initial[..i], initial[i], rest, ExpandTask(initial[i], loadSeries, open, false).value);
      tasks := step.value;
    }
    assert initial[0..] == initial && initial[..0] == [];
    assert tasks == ExpandAll(initial, loadSeries, open, false).value;
    r := Some(tasks);
  }

  /** Splicing the expansion x of the entry at |pre| of pre + [t] + rest. */
  lemma ExpandSplice(pre: seq<Task>, t: Task, rest: seq<Task>, x: seq<Task>)
    ensures Replaced(pre + [t] + rest, |pre|, x) == pre + (x + rest)
  {
    var ts := pre + [t] + rest;
    assert ts[..|pre|] == pre;
    assert ts[|pre| + 1..] == rest;
  }

  // ---------------------------------------------------------------------
  // The checks of the task loop
  // ---------------------------------------------------------------------

  /** `name.contains(".")` and the text from the last dot equals ext. */
  predicate HasExtension(nm: string, ext: string)
  {
    '.' in nm && nm[LastIndexOf(nm, '.')..] == ext
  }

  /** The dimensions of an opened image. */
  datatype ImageDims = ImageDims(nChannels: int, nSlices: int, nFrames: int)

  /** A task is processed, rejected with a message, or the plug-in fails
      (a null name is dereferenced). */
  datatype TaskOutcome = Accepted | Rejected(message: string) | Crashed

  function TaskHeader(task: int, tasks: int): string
  {
    "Task " + IntToString(task + 1) + "/" + IntToString(tasks) + ": "
  }

  const NoImageMessage := "A file is no image! " + "Could not be processed!"
  const OpenFailedMessage := "file is no image - " + "could not be processed!"
  const NotProcessed := "Could not be processed. "
  const MultiFrameMessage := NotProcessed + "Analysis of multi-frame images " + "not yet implemented!"
  const ThreeDMessage := NotProcessed + "Analysis of 3D images " + "not yet implemented!"
  const ChannelMessage := NotProcessed + "Selected channel does not " + "exist in the image!"
    + " Select a channel number " + "between 1 and the total number " + "of channels in the image."

  /** The checks before a task is processed, in the plug-in's order; image
      is the opened image, None when opening it throws. */
  function CheckTask(task: int, tasks: int, name: Option<string>, image: Option<ImageDims>, channelID: int): TaskOutcome
  {
    if name.None? then Crashed
    else if HasExtension(name.value, ".txt") || HasExtension(name.value, ".zip") then
      Rejected(TaskHeader(task, tasks) + NoImageMessage)
    else if image.None? then Rejected(TaskHeader(task, tasks) + OpenFailedMessage)
    else if image.value.nFrames > 1 then Rejected(TaskHeader(task, tasks) + MultiFrameMessage)
    else if image.value.nSlices > 1 then Rejected(TaskHeader(task, tasks) + ThreeDMessage)
    else if channelID < 1 || channelID > image.value.nChannels then Rejected(TaskHeader(task, tasks) + ChannelMessage)
    else Accepted
  }

  /** A task is processed exactly when it names a file that is not a text or
      zip file, opens as a single-frame 2D image and has the selected
      channel; the plug-in fails exactly on a null name; every rejection
      starts with the task's "Task i/n: " header. */
  lemma CheckTaskMeaning(task: int, tasks: int, name: Option<string>, image: Option<ImageDims>, channelID: int)
    ensures CheckTask(task, tasks, name, image, channelID) == Crashed <==> name.None?
    ensures CheckTask(task, tasks, name, image, channelID) == Accepted <==>
      name.Some? && !HasExtension(name.value, ".txt") && !HasExtension(name.value, ".zip") &&
      image.Some? && image.value.nFrames <= 1 && image.value.nSlices <= 1 &&
      1 <= channelID <= image.value.nChannels
    ensures CheckTask(task, tasks, name, image, channelID).Rejected? ==>
      StartsWith(CheckTask(task, tasks, name, image, channelID).message, TaskHeader(task, tasks))
  {
    var r := CheckTask(task, tasks, name, image, channelID);
    if r.Rejected? {
      assert r.message[..|TaskHeader(task, tasks)|] == TaskHeader(task, tasks);
    }
  }

  /** The multi-frame check comes first: a 3D time series is reported as
      multi-frame. */
  lemma CheckTaskFramesFirst(task: int, tasks: int, nm: string, image: ImageDims, channelID: int)
    requires !HasExtension(nm, ".txt") && !HasExtension(nm, ".zip")
    requires image.nFrames > 1
    ensures CheckTask(task, tasks, Some(nm), Some(image), channelID) == Rejected(TaskHeader(task, tasks) + MultiFrameMessage)
  {
  }

  // ---------------------------------------------------------------------
  // Output file names
  // ---------------------------------------------------------------------

  /** The file name up to its last dot, or the whole name without a dot. */
  function BaseName(nm: string): (r: string)
    ensures '.' !in nm ==> r == nm
    ensures '.' in nm ==> |r| < |nm| && nm[..|r|] == r && nm[|r|] == '.' && '.' !in nm[|r| + 1..]
  {
    if '.' in nm then nm[..LastIndexOf(nm, '.')] else nm
  }

  /** "_s" and the 1-based series number, for files with several series. */
  function SeriesTag(series: int, totSeries: int): string
  {
    if totSeries > 1 then "_s" + IntToString(series + 1) else ""
  }

  /** "_" and the formatted start date, when the date variant is chosen. */
  function DateTag(dateSuffix: Option<string>): string
  {
    if dateSuffix.Some? then "_" + dateSuffix.value else ""
  }

  /** The prefix of every output file of a task: directory, base name, the
      series number when the file has several, "_AQP", and the start date
      when the date variant of the output name is chosen (dateSuffix). */
  function FilePrefix(nm: string, dir: Option<string>, series: int, totSeries: int, dateSuffix: Option<string>): string
  {
    JavaString(dir) + BaseName(nm) + SeriesTag(series, totSeries) + "_AQP" + DateTag(dateSuffix)
  }

  /** The prefix starts with the directory and the base name. */
  lemma FilePrefixStarts(nm: string, dir: Option<string>, series: int, totSeries: int, dateSuffix: Option<string>)
    ensures StartsWith(FilePrefix(nm, dir, series, totSeries, dateSuffix), JavaString(dir) + BaseName(nm))
  {
    var p := JavaString(dir) + BaseName(nm);
    ConcatParts(p, SeriesTag(series, totSeries));
    StartsWithAppend(p + SeriesTag(series, totSeries), p, "_AQP");
    StartsWithAppend(p + SeriesTag(series, totSeries) + "_AQP", p, DateTag(dateSuffix));
  }

  /** The prefix ends with "_AQP", or with "_AQP_" and the date. */
  lemma FilePrefixEnds(nm: string, dir: Option<string>, series: int, totSeries: int, dateSuffix: Option<string>)
    ensures var r := FilePrefix(nm, dir, series, totSeries, dateSuffix);
      var tail := if dateSuffix.Some? then "_AQP_" + dateSuffix.value else "_AQP";
      |tail| <= |r| && r[|r| - |tail|..] == tail
  {
    var front := JavaString(dir) + BaseName(nm) + SeriesTag(series, totSeries);
    var tail := "_AQP" + DateTag(dateSuffix);
    assert FilePrefix(nm, dir, series, totSeries, dateSuffix) == front + tail;
    ConcatParts(front, tail);
    if dateSuffix.Some? {
      assert tail == "_AQP_" + dateSuffix.value;
    } else {
      assert tail == "_AQP";
    }
  }

  /** The prefix of series s of a multi-series file, split before the
      series number. */
  lemma FilePrefixOfSeries(nm: string, dir: Option<string>, s: int, totSeries: int, dateSuffix: Option<string>)
    requires totSeries > 1 && 0 <= s
    ensures FilePrefix(nm, dir, s, totSeries, dateSuffix) ==
      (JavaString(dir) + BaseName(nm) + "_s") + (IntToString(s + 1) + ("_AQP" + DateTag(dateSuffix)))
  {
  }

  /** Different series of one multi-series file get different prefixes. */
  lemma FilePrefixSeriesDistinct(nm: string, dir: Option<string>, s1: int, s2: int, totSeries: int, dateSuffix: Option<string>)
    requires totSeries > 1 && 0 <= s1 && 0 <= s2
    requires FilePrefix(nm, dir, s1, totSeries, dateSuffix) == FilePrefix(nm, dir, s2, totSeries, dateSuffix)
    ensures s1 == s2
  {
    var p := JavaString(dir) + BaseName(nm) + "_s";
    var tail := "_AQP" + DateTag(dateSuffix);
    FilePrefixOfSeries(nm, dir, s1, totSeries, dateSuffix);
    FilePrefixOfSeries(nm, dir, s2, totSeries, dateSuffix);
    ConcatParts(p, IntToString(s1 + 1) + tail);
    ConcatParts(p, IntToString(s2 + 1) + tail);
    DigitsBeforeSame(IntToString(s1 + 1), IntToString(s2 + 1), tail);
    NatToStringInjective(s1 + 1, s2 + 1);
  }

  /** The extension does not enter the prefix. */
  lemma FilePrefixIgnoresExtension(base: string, e1: string, e2: string, dir: Option<string>, series: int, totSeries: int,
                                   dateSuffix: Option<string>)
    requires '.' !in e1 && '.' !in e2
    ensures FilePrefix(base + "." + e1, dir, series, totSeries, dateSuffix)
      == FilePrefix(base + "." + e2, dir, series, totSeries, dateSuffix)
  {
    assert base + "." + e1 == base + ['.'] + e1;
    assert base + "." + e2 == base + ['.'] + e2;
    LastIndexAfterSeparator(base, '.', e1);
    LastIndexAfterSeparator(base, '.', e2);
    assert (base + "." + e1)[|base|] == '.';
    assert (base + "." + e2)[|base|] == '.';
    assert BaseName(base + "." + e1) == base == BaseName(base + "." + e2);
  }
}
