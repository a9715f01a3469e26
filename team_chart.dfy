/** The team org chart (src/components/team-chart.tsx): choosing the chart,
    filtering and capping the levels of the simple chart, the lab colours,
    the node layout and reports-to edges of the advanced chart, its hover
    state, and the search for a member's direct reports. */
module TeamChart {
  import opened JsCore
  import opened SiteTypes

  // ===========================================================================
  // Choosing the chart

  /** A lab filter always forces the simple chart; without one the caller's
      choice stands. */
  function ShouldUseAdvancedChart(labIdFilter: Option<string>, useAdvancedChart: bool): (r: bool)
    ensures Truthy(labIdFilter) ==> !r
    ensures !Truthy(labIdFilter) ==> (r <==> useAdvancedChart)
  {
    if Truthy(labIdFilter) then false else useAdvancedChart
  }

  /** The language segment of a path such as `/en/team`, `kk` when absent or empty. */
  function LangOfPath(pathname: Option<string>): (lang: string)
    ensures lang != "" && '/' !in lang
    ensures pathname.None? ==> lang == "kk"
  {
    if pathname.None? then "kk"
    else
      var segments := Split(pathname.value, '/');
      if |segments| > 1 && segments[1] != "" then segments[1] else "kk"
  }

  /** On a page `/<lang>/<rest>` the language is `<lang>`. */
  lemma {:induction false} LangOfPathOf(lang: string, rest: string)
    requires lang != "" && '/' !in lang
    ensures LangOfPath(Some("/" + lang + "/" + rest)) == lang
  {
    var p := "/" + lang + "/" + rest;
    assert p == "" + ['/'] + (lang + "/" + rest);
    SplitPrefix("", '/', lang + "/" + rest);
    assert lang + "/" + rest == lang + ['/'] + rest;
    SplitPrefix(lang, '/', rest);
    assert Split(p, '/')[1] == lang;
  }

  /** Clicking a member of either chart goes to the member's lab page, and
      does nothing for a member without a lab. */
  function MemberClickTarget(pathname: Option<string>, member: TeamMember): (target: Option<string>)
    ensures target.Some? <==> Truthy(member.labId)
    ensures target.Some? ==> target.value == "/" + LangOfPath(pathname) + "/labs/" + member.labId.value
  {
    if Truthy(member.labId) then Some("/" + LangOfPath(pathname) + "/labs/" + member.labId.value) else None
  }

  // ===========================================================================
  // The simple chart: filtered and visible levels

  /** The members of one level that belong to lab `lab`, in order. */
  function MembersOfLab(level: seq<TeamMember>, lab: string): seq<TeamMember>
  {
    Filter(level, InLab(lab))
  }

  function InLab(lab: string): TeamMember -> bool
  {
    (m: TeamMember) => m.labId == Some(lab)
  }

  /** The levels, each cut down to the lab's members, with emptied levels dropped. */
  function FilterLevels(data: TeamData, lab: string): TeamData
  {
    if data == [] then []
    else
      var level := MembersOfLab(data[0], lab);
      (if |level| > 0 then [level] else []) + FilterLevels(data[1..], lab)
  }

  /** `filteredTeamData`: the data unchanged without a lab filter, the
      lab's members level by level otherwise. */
  function FilteredTeamData(data: TeamData, labIdFilter: Option<string>): TeamData
  {
    if Truthy(labIdFilter) then FilterLevels(data, labIdFilter.value) else data
  }

  /** With a lab filter, no level of the result is empty and every member
      of it belongs to the lab. */
  lemma {:induction false} FilterLevelsShape(data: TeamData, lab: string)
    ensures forall i :: 0 <= i < |FilterLevels(data, lab)| ==>
      FilterLevels(data, lab)[i] != [] && forall m :: m in FilterLevels(data, lab)[i] ==> m.labId == Some(lab)
  {
    if data != [] {
      FilterLevelsShape(data[1..], lab);
    }
  }

  /** With a lab filter, the members read level by level are exactly the
      lab's members of the original data, in the original order. */
  lemma {:induction false} FilterLevelsFlatten(data: TeamData, lab: string)
    ensures Flatten(FilterLevels(data, lab)) == MembersOfLab(Flatten(data), lab)
  {
    if data != [] {
      FilterLevelsFlatten(data[1..], lab);
      FilterLevelsStep(data, lab);
      MembersOfLabStep(data, lab);
    }
  }

  /** Reading the filtered levels: the first level's lab members, then the rest. */
  lemma {:induction false} FilterLevelsStep(data: TeamData, lab: string)
    requires data != []
    ensures Flatten(FilterLevels(data, lab)) == MembersOfLab(data[0], lab) + Flatten(FilterLevels(data[1..], lab))
  {
    var level := MembersOfLab(data[0], lab);
    var rest := FilterLevels(data[1..], lab);
    if |level| > 0 {
      var levels := [level] + rest;
      assert FilterLevels(data, lab) == levels;
      assert levels[0] == level && levels[1..] == rest;
      assert Flatten(levels) == level + Flatten(rest);
    } else {
      assert level == [];
      assert FilterLevels(data, lab) == rest;
    }
  }

  /** The lab's members of all levels: those of the first level, then the rest. */
  lemma {:induction false} MembersOfLabStep(data: TeamData, lab: string)
    requires data != []
    ensures MembersOfLab(Flatten(data), lab) == MembersOfLab(data[0], lab) + MembersOfLab(Flatten(data[1..]), lab)
  {
    FilterAppend(data[0], Flatten(data[1..]), InLab(lab));
  }

  /** Without a lab filter the data is returned as it is. */
  lemma {:induction false} FilteredTeamDataUnfiltered(data: TeamData, labIdFilter: Option<string>)
    requires !Truthy(labIdFilter)
    ensures FilteredTeamData(data, labIdFilter) == data
  {
  }

  /** `visibleTeamData`: all filtered levels when a lab is selected,
      otherwise the first three levels. */
  function VisibleTeamData(data: TeamData, labIdFilter: Option<string>): (r: TeamData)
    ensures Truthy(labIdFilter) ==> r == FilteredTeamData(data, labIdFilter)
    ensures !Truthy(labIdFilter) ==> |r| == if |data| < 3 then |data| else 3
    ensures r <= FilteredTeamData(data, labIdFilter)
  {
    var filtered := FilteredTeamData(data, labIdFilter);
    if Truthy(labIdFilter) then filtered
    else if |filtered| <= 3 then filtered
    else filtered[..3]
  }

  /** The simple chart shows "No team members found." exactly when the
      filtered data has no member. */
  function SimpleChartIsEmpty(data: TeamData, labIdFilter: Option<string>): (empty: bool)
    ensures empty <==> !exists m :: m in Flatten(data) && (Truthy(labIdFilter) ==> m.labId == labIdFilter)
  {
    FilteredMembersEmpty(data, labIdFilter);
    |Flatten(FilteredTeamData(data, labIdFilter))| == 0
  }

  lemma {:induction false} FilteredMembersEmpty(data: TeamData, labIdFilter: Option<string>)
    ensures |Flatten(FilteredTeamData(data, labIdFilter))| == 0
        <==> !exists m :: m in Flatten(data) && (Truthy(labIdFilter) ==> m.labId == labIdFilter)
  {
    var members := Flatten(FilteredTeamData(data, labIdFilter));
    if Truthy(labIdFilter) {
      var lab := labIdFilter.value;
      FilterLevelsFlatten(data, lab);
      assert members == MembersOfLab(Flatten(data), lab);
      if |members| > 0 {
        assert members[0] in members;
        assert InLab(lab)(members[0]);
      }
      if m :| m in Flatten(data) && m.labId == labIdFilter {
        assert InLab(lab)(m);
        assert m in members;
      }
    } else {
      assert members == Flatten(data);
      if |members| > 0 {
        assert members[0] in members;
      }
    }
  }

  // ===========================================================================
  // Lab colours

  const LabColors: seq<string> := [
    "#3b82f6", "#ef4444", "#22c55e", "#f97316", "#8b5cf6",
    "#ec4899", "#14b8a6", "#f59e0b", "#6366f1", "#64748b"]

  /** The colour of members without a lab. */
  const NoLabColor: string := "#777777"

  /** The default order of `Array.prototype.sort` on strings: lexicographic
      by character. */
  predicate StrLess(a: string, b: string)
  {
    if a == [] then b != []
    else if b == [] then false
    else if a[0] != b[0] then a[0] < b[0]
    else StrLess(a[1..], b[1..])
  }

  lemma {:induction false} StrLessIrreflexive(a: string)
    ensures !StrLess(a, a)
  {
    if a != [] {
      StrLessIrreflexive(a[1..]);
    }
  }

  lemma {:induction false} StrLessTransitive(a: string, b: string, c: string)
    requires StrLess(a, b) && StrLess(b, c)
    ensures StrLess(a, c)
  {
    if a != [] && b != [] && c != [] && a[0] == b[0] && b[0] == c[0] {
      StrLessTransitive(a[1..], b[1..], c[1..]);
    }
  }

  lemma {:induction false} StrLessTotal(a: string, b: string)
    ensures a == b || StrLess(a, b) || StrLess(b, a)
  {
    if a != [] && b != [] && a[0] == b[0] {
      StrLessTotal(a[1..], b[1..]);
      if a[1..] == b[1..] {
        assert a == [a[0]] + a[1..] && b == [b[0]] + b[1..];
      }
    }
  }

  predicate StrictlySorted(s: seq<string>)
  {
    forall i, j :: 0 <= i < j < |s| ==> StrLess(s[i], s[j])
  }

  /** Adds `x` to a strictly sorted list unless it is already there. */
  function InsertSorted(x: string, s: seq<string>): (r: seq<string>)
    requires StrictlySorted(s)
    ensures StrictlySorted(r)
    ensures forall y :: y in r <==> y in s || y == x
  {
    if s == [] then [x]
    else if x == s[0] then s
    else if StrLess(x, s[0]) then
      assert forall j :: 0 <= j < |s| ==> StrLess(x, s[j]) by {
        forall j | 0 <= j < |s| ensures StrLess(x, s[j]) {
          if j > 0 { StrLessTransitive(x, s[0], s[j]); }
        }
      }
      [x] + s
    else
      StrLessTotal(x, s[0]);
      var rest := InsertSorted(x, s[1..]);
      assert forall y :: y in rest ==> StrLess(s[0], y);
      [s[0]] + rest
  }

  /** `[...new Set(allLabIds.filter(Boolean))].sort()`: the distinct
      non-empty lab ids in ascending order. */
  function SortedLabIds(allLabIds: seq<Option<string>>): (r: seq<string>)
    ensures StrictlySorted(r)
    ensures forall s :: s in r <==> Truthy(Some(s)) && Some(s) in allLabIds
  {
    if allLabIds == [] then []
    else
      var init := allLabIds[..|allLabIds| - 1];
      var last := allLabIds[|allLabIds| - 1];
      assert allLabIds == init + [last];
      var sorted := SortedLabIds(init);
      if Truthy(last) then InsertSorted(last.value, sorted) else sorted
  }

  /** `Array.prototype.indexOf`: the first position of `x`, or -1. */
  function IndexOf(s: seq<string>, x: string): (i: int)
    ensures -1 <= i < |s|
    ensures i == -1 <==> x !in s
    ensures 0 <= i ==> s[i] == x
    ensures forall j :: 0 <= j < i ==> s[j] != x
  {
    if s == [] then -1
    else if s[0] == x then 0
    else
      var j := IndexOf(s[1..], x);
      if j == -1 then -1 else j + 1
  }

  /** The rank of a lab among all labs present: how many distinct non-empty
      lab ids sort before it. */
  function LabRank(lab: string, allLabIds: seq<Option<string>>): nat
  {
    |LabsBefore(lab, allLabIds)|
  }

  /** The distinct non-empty lab ids that sort before `lab`. */
  function LabsBefore(lab: string, allLabIds: seq<Option<string>>): set<string>
  {
    set o | o in allLabIds && Truthy(o) && StrLess(o.value, lab) :: o.value
  }

  /** The elements of a list that sort before `x`. */
  function Below(s: seq<string>, x: string): set<string>
  {
    set y | y in s && StrLess(y, x)
  }

  /** In a strictly sorted list, the position of an element is the number of
      elements smaller than it. */
  lemma {:induction false} RankIsPosition(s: seq<string>, i: nat)
    requires StrictlySorted(s) && i < |s|
    ensures |Below(s, s[i])| == i
  {
    var below := Below(s, s[i]);
    var before := set y | y in s[..i];
    assert below == before by {
      forall y | y in s && StrLess(y, s[i]) ensures y in s[..i] {
        var j :| 0 <= j < |s| && s[j] == y;
        if j == i { StrLessIrreflexive(y); }
        if j > i { StrLessTransitive(s[i], s[j], s[i]); StrLessIrreflexive(s[i]); }
      }
      forall y | y in s[..i] ensures y in s && StrLess(y, s[i]) {
        var j :| 0 <= j < i && s[j] == y;
      }
    }
    assert StrictlySorted(s[..i]);
    DistinctCard(s[..i]);
    assert |before| == i;
  }

  /** A strictly sorted list has no repeats, so its set has its length. */
  lemma {:induction false} DistinctCard(s: seq<string>)
    requires StrictlySorted(s)
    ensures |set y | y in s| == |s|
  {
    if s != [] {
      DistinctCard(s[1..]);
      assert (set y | y in s) == {s[0]} + (set y | y in s[1..]);
      if s[0] in s[1..] {
        var j :| 0 <= j < |s[1..]| && s[1..][j] == s[0];
        assert StrLess(s[0], s[j + 1]);
        StrLessIrreflexive(s[0]);
      }
    }
  }

  /** The position of a present lab in the sorted lab list is its rank. */
  lemma {:induction false} LabRankIsIndex(lab: string, allLabIds: seq<Option<string>>)
    requires lab != "" && Some(lab) in allLabIds
    ensures LabRank(lab, allLabIds) == IndexOf(SortedLabIds(allLabIds), lab)
  {
    var sorted := SortedLabIds(allLabIds);
    assert Truthy(Some(lab));
    assert lab in sorted;
    var i := IndexOf(sorted, lab);
    RankIsPosition(sorted, i);
    var a := Below(sorted, sorted[i]);
    var b := LabsBefore(lab, allLabIds);
    forall y | y in a ensures y in b {
      assert Some(y) in allLabIds && Truthy(Some(y));
    }
    forall y | y in b ensures y in a {
      var o :| o in allLabIds && Truthy(o) && StrLess(o.value, lab) && o.value == y;
      assert Some(y) == o;
    }
    assert a == b;
  }

  /** `getLabColor`: grey without a lab; otherwise the palette colour at the
      lab's rank, wrapping after ten labs. */
  function GetLabColor(labId: Option<string>, allLabIds: seq<Option<string>>): (r: string)
    requires Truthy(labId) ==> labId in allLabIds
    ensures !Truthy(labId) ==> r == NoLabColor
    ensures Truthy(labId) ==> r == LabColors[LabRank(labId.value, allLabIds) % |LabColors|]
  {
    if !Truthy(labId) then NoLabColor
    else
      var sorted := SortedLabIds(allLabIds);
      var index := IndexOf(sorted, labId.value);
      LabRankIsIndex(labId.value, allLabIds);
      LabColors[index % |LabColors|]
  }

  /** With at most ten labs on the chart, different labs get different colours. */
  lemma {:induction false} DistinctLabsDistinctColors(a: string, b: string, allLabIds: seq<Option<string>>)
    requires |SortedLabIds(allLabIds)| <= |LabColors|
    requires a != "" && b != "" && a != b
    requires Some(a) in allLabIds && Some(b) in allLabIds
    ensures GetLabColor(Some(a), allLabIds) != GetLabColor(Some(b), allLabIds)
  {
    var sorted := SortedLabIds(allLabIds);
    var i := LabColorAt(a, allLabIds);
    var j := LabColorAt(b, allLabIds);
    assert i != j;
    LabColorsDistinct(i, j);
  }

  /** A present lab's colour is the palette entry at its position in the
      sorted lab list (wrapping), and that position is below the list's length. */
  lemma {:induction false} LabColorAt(lab: string, allLabIds: seq<Option<string>>) returns (i: nat)
    requires lab != "" && Some(lab) in allLabIds
    ensures i == IndexOf(SortedLabIds(allLabIds), lab) && i < |SortedLabIds(allLabIds)|
    ensures i < |LabColors| ==> GetLabColor(Some(lab), allLabIds) == LabColors[i]
  {
    var sorted := SortedLabIds(allLabIds);
    assert Truthy(Some(lab));
    assert lab in sorted;
    LabRankIsIndex(lab, allLabIds);
    i := IndexOf(sorted, lab);
    if i < |LabColors| {
      ModSmall(i, |LabColors|);
    }
  }

  lemma {:induction false} ModSmall(i: nat, n: nat)
    requires i < n
    ensures i % n == i
  {
  }

  /** The position of a colour in the palette, -1 for other colours. */
  function PaletteIndex(color: string): int
  {
    if color == "#3b82f6" then 0 else if color == "#ef4444" then 1 else if color == "#22c55e" then 2
    else if color == "#f97316" then 3 else if color == "#8b5cf6" then 4 else if color == "#ec4899" then 5
    else if color == "#14b8a6" then 6 else if color == "#f59e0b" then 7 else if color == "#6366f1" then 8
    else if color == "#64748b" then 9 else -1
  }

  /** The ten palette colours are pairwise different. */
  lemma {:induction false} LabColorsDistinct(i: nat, j: nat)
    requires i < |LabColors| && j < |LabColors| && i != j
    ensures LabColors[i] != LabColors[j]
  {
    forall k | 0 <= k < |LabColors| ensures PaletteIndex(LabColors[k]) == k {
      if k == 0 {} else if k == 1 {} else if k == 2 {} else if k == 3 {} else if k == 4 {}
      else if k == 5 {} else if k == 6 {} else if k == 7 {} else if k == 8 {} else {}
    }
  }

  // ===========================================================================
  // The advanced chart: nodes and edges

  datatype Point = Point(x: int, y: int)

  /** A node of the advanced chart, with the data its renderer receives. */
  datatype FlowNode = FlowNode(
    id: string,
    member: TeamMember,
    position: Point,
    labColor: string,
    isHovered: bool,
    isHighlighted: bool)

  /** A reports-to edge: from the member (`source`) to the manager (`target`). */
  datatype FlowEdge = FlowEdge(
    id: string,
    source: string,
    target: string,
    strokeWidth: int,
    stroke: string,
    labId: Option<string>,
    labColor: string)

  const NodeWidth: int := 160
  const NodeGap: int := 30
  const LevelSpacing: int := 350
  const EdgeColor: string := "#cccccc"

  /** The members the advanced chart shows: all of them, or only the lab's. */
  function VisibleMembers(data: TeamData, labIdFilter: Option<string>): seq<TeamMember>
  {
    if Truthy(labIdFilter) then MembersOfLab(Flatten(data), labIdFilter.value) else Flatten(data)
  }

  /** `visibleMembers.map(member => member.labId)`. */
  function LabIdsOf(members: seq<TeamMember>): (ids: seq<Option<string>>)
    ensures |ids| == |members|
    ensures forall i {:trigger ids[i]} :: 0 <= i < |members| ==> ids[i] == members[i].labId
    ensures forall m :: m in members ==> m.labId in ids
  {
    var ids := seq(|members|, i requires 0 <= i < |members| => members[i].labId);
    assert forall m :: m in members ==> m.labId in ids by {
      forall m | m in members ensures m.labId in ids {
        var i :| 0 <= i < |members| && members[i] == m;
        assert ids[i] == m.labId;
      }
    }
    ids
  }

  predicate ColorsKnown(members: seq<TeamMember>, allLabIds: seq<Option<string>>)
  {
    forall m :: m in members ==> m.labId in allLabIds
  }

  /** The members of one level, in order. */
  function MembersAtLevel(members: seq<TeamMember>, level: int): seq<TeamMember>
  {
    Filter(members, AtLevel(level))
  }

  function AtLevel(level: int): TeamMember -> bool
  {
    (m: TeamMember) => m.level == level
  }

  function LevelAmong(levels: seq<int>): TeamMember -> bool
  {
    (m: TeamMember) => m.level in levels
  }

  predicate Increasing(s: seq<int>)
  {
    forall i, j :: 0 <= i < j < |s| ==> s[i] < s[j]
  }

  function InsertLevel(x: int, s: seq<int>): (r: seq<int>)
    requires Increasing(s)
    ensures Increasing(r)
    ensures forall y :: y in r <==> y in s || y == x
  {
    if s == [] then [x]
    else if x == s[0] then s
    else if x < s[0] then [x] + s
    else
      var tail := s[1..];
      assert Increasing(tail) by {
        forall i, j | 0 <= i < j < |tail| ensures tail[i] < tail[j] {
          assert tail[i] == s[i + 1] && tail[j] == s[j + 1];
        }
      }
      var rest := InsertLevel(x, tail);
      assert forall j :: 0 <= j < |rest| ==> s[0] < rest[j] by {
        forall j | 0 <= j < |rest| ensures s[0] < rest[j] {
          assert rest[j] in rest;
          if rest[j] != x {
            var i :| 0 <= i < |tail| && tail[i] == rest[j];
            assert s[0] < s[i + 1];
          }
        }
      }
      [s[0]] + rest
  }

  /** The distinct levels of the members, in ascending numeric order (the
      sorted keys of `membersByLevel`). */
  function SortedLevels(members: seq<TeamMember>): (r: seq<int>)
    ensures Increasing(r)
    ensures forall l :: l in r <==> exists m :: m in members && m.level == l
  {
    if members == [] then []
    else
      var init := members[..|members| - 1];
      var last := members[|members| - 1];
      assert members == init + [last];
      InsertLevel(last.level, SortedLevels(init))
  }

  /** The position of the `memberIndex`-th of `count` members on the level
      drawn `levelIndex`-th. */
  function NodePosition(count: nat, memberIndex: nat, levelIndex: nat): (p: Point)
    ensures p.x == -95 * count + 80 + 190 * memberIndex
    ensures p.y == 350 * levelIndex
  {
    var levelWidth := count * (NodeWidth + NodeGap);
    var startX := -(levelWidth / 2) + NodeWidth / 2;
    Point(startX + memberIndex * (NodeWidth + NodeGap), levelIndex * LevelSpacing)
  }

  /** A member's lab is the highlighted one. */
  predicate LabHighlighted(member: TeamMember, highlightedLabId: Option<string>)
  {
    Truthy(member.labId) && highlightedLabId == member.labId
  }

  function NodeFor(member: TeamMember, levelIndex: nat, count: nat, memberIndex: nat,
                   allLabIds: seq<Option<string>>, hovered: Option<string>, highlighted: Option<string>): FlowNode
    requires member.labId in allLabIds
  {
    FlowNode(member.id, member, NodePosition(count, memberIndex, levelIndex),
             GetLabColor(member.labId, allLabIds),
             hovered == Some(member.id), LabHighlighted(member, highlighted))
  }

  /** The nodes of one level. */
  function RowNodes(row: seq<TeamMember>, levelIndex: nat,
                    allLabIds: seq<Option<string>>, hovered: Option<string>, highlighted: Option<string>): (r: seq<FlowNode>)
    requires ColorsKnown(row, allLabIds)
    ensures |r| == |row|
  {
    seq(|row|, i requires 0 <= i < |row| => NodeFor(row[i], levelIndex, |row|, i, allLabIds, hovered, highlighted))
  }

  /** The nodes of the first `k` levels. */
  function LayoutUpTo(visible: seq<TeamMember>, levels: seq<int>, k: nat,
                      allLabIds: seq<Option<string>>, hovered: Option<string>, highlighted: Option<string>): seq<FlowNode>
    requires k <= |levels|
    requires ColorsKnown(visible, allLabIds)
  {
    if k == 0 then []
    else LayoutUpTo(visible, levels, k - 1, allLabIds, hovered, highlighted)
         + RowNodes(MembersAtLevel(visible, levels[k - 1]), k - 1, allLabIds, hovered, highlighted)
  }

  /** The node list the advanced chart's effect builds from its visible members. */
  function Layout(visible: seq<TeamMember>, hovered: Option<string>, highlighted: Option<string>): seq<FlowNode>
  {
    var levels := SortedLevels(visible);
    LayoutUpTo(visible, levels, |levels|, LabIdsOf(visible), hovered, highlighted)
  }

  /** `membersByLevel`: the visible members grouped by level, each group in
      the members' order. */
  method GroupByLevel(members: seq<TeamMember>) returns (byLevel: map<int, seq<TeamMember>>)
    ensures forall l :: l in byLevel <==> exists m :: m in members && m.level == l
    ensures forall l :: l in byLevel ==> byLevel[l] == MembersAtLevel(members, l)
  {
    byLevel := map[];
    for i := 0 to |members|
      invariant forall l :: l in byLevel <==> exists j :: 0 <= j < i && members[j].level == l
      invariant forall l :: l in byLevel ==> byLevel[l] == MembersAtLevel(members[..i], l)
    {
      var member := members[i];
      assert members[..i + 1] == members[..i] + [member];
      if member.level !in byLevel {
        FilterNone(members[..i], AtLevel(member.level));
        byLevel := byLevel[member.level := []];
      }
      byLevel := byLevel[member.level := byLevel[member.level] + [member]];
      forall l | l in byLevel ensures byLevel[l] == MembersAtLevel(members[..i + 1], l) {
        LevelStepOne(members[..i], member, l);
      }
    }
    assert members[..|members|] == members;
  }

  /** Adding one member to a list adds it to its own level's group only. */
  lemma {:induction false} LevelStepOne(prefix: seq<TeamMember>, member: TeamMember, l: int)
    ensures MembersAtLevel(prefix + [member], l)
         == MembersAtLevel(prefix, l) + (if member.level == l then [member] else [])
  {
    FilterAppend(prefix, [member], AtLevel(l));
    assert Filter([member], AtLevel(l)) == (if member.level == l then [member] else []);
  }

  /** Places the members of one level left to right after `nodes`. */
  method AppendRow(nodes: seq<FlowNode>, row: seq<TeamMember>, levelIndex: nat,
                   allLabIds: seq<Option<string>>, hovered: Option<string>, highlighted: Option<string>)
    returns (out: seq<FlowNode>)
    requires ColorsKnown(row, allLabIds)
    ensures out == nodes + RowNodes(row, levelIndex, allLabIds, hovered, highlighted)
  {
    ghost var placed := RowNodes(row, levelIndex, allLabIds, hovered, highlighted);
    out := nodes;
    for i := 0 to |row|
      invariant out == nodes + placed[..i]
    {
      out := out + [NodeFor(row[i], levelIndex, |row|, i, allLabIds, hovered, highlighted)];
      assert placed[..i + 1] == placed[..i] + [placed[i]];
    }
    assert placed[..|row|] == placed;
  }

  /** Builds the nodes level by level, as the advanced chart's effect does:
      group the members by level, walk the levels in ascending order and
      place each level's members left to right. */
  method BuildNodes(visible: seq<TeamMember>, hovered: Option<string>, highlighted: Option<string>)
    returns (nodes: seq<FlowNode>)
    ensures nodes == Layout(visible, hovered, highlighted)
  {
    var allLabIds := LabIdsOf(visible);
    var byLevel := GroupByLevel(visible);
    var levels := SortedLevels(visible);
    nodes := [];
    for k := 0 to |levels|
      invariant nodes == LayoutUpTo(visible, levels, k, allLabIds, hovered, highlighted)
    {
      assert levels[k] in levels;
      var row := byLevel[levels[k]];
      assert row == MembersAtLevel(visible, levels[k]);
      nodes := AppendRow(nodes, row, k, allLabIds, hovered, highlighted);
    }
  }

  function NodeMembers(nodes: seq<FlowNode>): (r: seq<TeamMember>)
    ensures |r| == |nodes|
    ensures forall i :: 0 <= i < |nodes| ==> r[i] == nodes[i].member
  {
    if nodes == [] then [] else [nodes[0].member] + NodeMembers(nodes[1..])
  }

  lemma {:induction false} NodeMembersAppend(a: seq<FlowNode>, b: seq<FlowNode>)
    ensures NodeMembers(a + b) == NodeMembers(a) + NodeMembers(b)
  {
    assert NodeMembers(a + b) == NodeMembers(a) + NodeMembers(b) by {
      var l, r := NodeMembers(a + b), NodeMembers(a) + NodeMembers(b);
      assert |l| == |r|;
      forall i | 0 <= i < |l| ensures l[i] == r[i] {
        if i < |a| { assert (a + b)[i] == a[i]; } else { assert (a + b)[i] == b[i - |a|]; }
      }
    }
  }

  /** The nodes of the first `k` levels carry the members whose level is
      among the first `k` levels, each once. */
  lemma {:induction false} LayoutUpToMembers(visible: seq<TeamMember>, levels: seq<int>, k: nat,
                                            allLabIds: seq<Option<string>>, hovered: Option<string>, highlighted: Option<string>)
    requires k <= |levels| && Increasing(levels)
    requires ColorsKnown(visible, allLabIds)
    ensures multiset(NodeMembers(LayoutUpTo(visible, levels, k, allLabIds, hovered, highlighted)))
         == multiset(Filter(visible, LevelAmong(levels[..k])))
  {
    if k == 0 {
      FilterNone(visible, LevelAmong(levels[..0]));
    } else {
      LayoutUpToMembers(visible, levels, k - 1, allLabIds, hovered, highlighted);
      var row := MembersAtLevel(visible, levels[k - 1]);
      var rowNodes := RowNodes(row, k - 1, allLabIds, hovered, highlighted);
      NodeMembersAppend(LayoutUpTo(visible, levels, k - 1, allLabIds, hovered, highlighted), rowNodes);
      assert NodeMembers(rowNodes) == row;
      LevelStep(visible, levels, k);
    }
  }

  /** The members whose level is among the first `k` levels are those among
      the first `k - 1` levels together with those of level `k - 1`. */
  lemma {:induction false} LevelStep(visible: seq<TeamMember>, levels: seq<int>, k: nat)
    requires 0 < k <= |levels| && Increasing(levels)
    ensures multiset(Filter(visible, LevelAmong(levels[..k])))
         == multiset(Filter(visible, LevelAmong(levels[..k - 1]))) + multiset(MembersAtLevel(visible, levels[k - 1]))
  {
    var p, q, r := LevelAmong(levels[..k]), LevelAmong(levels[..k - 1]), AtLevel(levels[k - 1]);
    assert levels[..k] == levels[..k - 1] + [levels[k - 1]];
    forall x ensures p(x) <==> q(x) || r(x) {
      assert x.level in levels[..k] <==> x.level in levels[..k - 1] || x.level == levels[k - 1];
    }
    forall x ensures !(q(x) && r(x)) {
      if x.level in levels[..k - 1] {
        var j :| 0 <= j < k - 1 && levels[j] == x.level;
        assert levels[j] < levels[k - 1];
      }
    }
    FilterSplit(visible, p, q, r);
  }

  /** Exactly one node per visible member: the members the nodes carry are
      the visible members, each as often as it is visible. */
  lemma {:induction false} LayoutMembers(visible: seq<TeamMember>, hovered: Option<string>, highlighted: Option<string>)
    ensures multiset(NodeMembers(Layout(visible, hovered, highlighted))) == multiset(visible)
    ensures |Layout(visible, hovered, highlighted)| == |visible|
  {
    var levels := SortedLevels(visible);
    LayoutUpToMembers(visible, levels, |levels|, LabIdsOf(visible), hovered, highlighted);
    assert levels[..|levels|] == levels;
    FilterAll(visible, LevelAmong(levels[..|levels|]));
    var n := NodeMembers(Layout(visible, hovered, highlighted));
    assert |multiset(n)| == |n|;
  }

  /** Every node of the first `k` levels is the `i`-th member of some level
      `j < k`, placed at its slot on that level's row. */
  lemma {:induction false} LayoutUpToPlacement(visible: seq<TeamMember>, levels: seq<int>, k: nat,
                                              allLabIds: seq<Option<string>>, hovered: Option<string>, highlighted: Option<string>)
    requires k <= |levels|
    requires ColorsKnown(visible, allLabIds)
    ensures forall n :: n in LayoutUpTo(visible, levels, k, allLabIds, hovered, highlighted) ==>
      PlacedAmong(n, visible, levels, k, allLabIds, hovered, highlighted)
  {
    if k > 0 {
      LayoutUpToPlacement(visible, levels, k - 1, allLabIds, hovered, highlighted);
      var row := MembersAtLevel(visible, levels[k - 1]);
      var rowNodes := RowNodes(row, k - 1, allLabIds, hovered, highlighted);
      forall n | n in LayoutUpTo(visible, levels, k, allLabIds, hovered, highlighted)
        ensures PlacedAmong(n, visible, levels, k, allLabIds, hovered, highlighted)
      {
        if n in rowNodes {
          var i :| 0 <= i < |row| && rowNodes[i] == n;
          assert n == NodeFor(row[i], k - 1, |row|, i, allLabIds, hovered, highlighted);
        } else {
          assert n in LayoutUpTo(visible, levels, k - 1, allLabIds, hovered, highlighted);
        }
      }
    }
  }

  /** Node `n` is the `i`-th member of some level `j < k`, placed at its
      slot on that level's row. */
  ghost predicate PlacedAmong(n: FlowNode, visible: seq<TeamMember>, levels: seq<int>, k: nat,
                              allLabIds: seq<Option<string>>, hovered: Option<string>, highlighted: Option<string>)
    requires k <= |levels|
    requires ColorsKnown(visible, allLabIds)
  {
    exists j, i :: 0 <= j < k && 0 <= i < |MembersAtLevel(visible, levels[j])| &&
      n == NodeFor(MembersAtLevel(visible, levels[j])[i], j, |MembersAtLevel(visible, levels[j])|, i,
                   allLabIds, hovered, highlighted)
  }

  /** Node layout: the id of a node is its member's id; a member on the
      `k`-th level (levels in ascending numeric order) that is the `i`-th of
      the `n` members of that level is drawn at x = -95n + 80 + 190i,
      y = 350k. */
  lemma {:induction false} LayoutPlacement(visible: seq<TeamMember>, hovered: Option<string>, highlighted: Option<string>, node: FlowNode)
    requires node in Layout(visible, hovered, highlighted)
    ensures node.id == node.member.id
    ensures exists k, i ::
              0 <= k < |SortedLevels(visible)| &&
              var row := MembersAtLevel(visible, SortedLevels(visible)[k]);
              0 <= i < |row| && node.member == row[i] &&
              node.position == Point(-95 * |row| + 80 + 190 * i, 350 * k)
    ensures node.member in visible
    ensures node.labColor == GetLabColor(node.member.labId, LabIdsOf(visible))
    ensures node.isHovered <==> hovered == Some(node.member.id)
    ensures node.isHighlighted <==> LabHighlighted(node.member, highlighted)
  {
    var levels := SortedLevels(visible);
    LayoutUpToPlacement(visible, levels, |levels|, LabIdsOf(visible), hovered, highlighted);
    var k, i :| 0 <= k < |levels| && 0 <= i < |MembersAtLevel(visible, levels[k])| &&
      node == NodeFor(MembersAtLevel(visible, levels[k])[i], k, |MembersAtLevel(visible, levels[k])|, i,
                      LabIdsOf(visible), hovered, highlighted);
    assert node.member in MembersAtLevel(visible, levels[k]);
  }

  /** Levels are drawn top to bottom in ascending numeric order: of two
      nodes, the one whose member has the lower level is drawn higher up,
      and nodes of the same level share a row. */
  lemma {:induction false} LevelsOrderRows(visible: seq<TeamMember>, hovered: Option<string>, highlighted: Option<string>, a: FlowNode, b: FlowNode)
    requires a in Layout(visible, hovered, highlighted) && b in Layout(visible, hovered, highlighted)
    ensures a.member.level < b.member.level <==> a.position.y < b.position.y
    ensures a.member.level == b.member.level <==> a.position.y == b.position.y
  {
    var levels := SortedLevels(visible);
    var ka := RowIndexOf(visible, hovered, highlighted, a);
    var kb := RowIndexOf(visible, hovered, highlighted, b);
    if ka < kb { assert levels[ka] < levels[kb]; }
    if kb < ka { assert levels[kb] < levels[ka]; }
  }

  /** The row of a laid-out node: the index of its level among the sorted
      levels, which fixes its height. */
  lemma {:induction false} RowIndexOf(visible: seq<TeamMember>, hovered: Option<string>, highlighted: Option<string>, a: FlowNode)
    returns (k: nat)
    requires a in Layout(visible, hovered, highlighted)
    ensures k < |SortedLevels(visible)| && a.member.level == SortedLevels(visible)[k] && a.position.y == 350 * k
  {
    var levels := SortedLevels(visible);
    LayoutPlacement(visible, hovered, highlighted, a);
    var ka, ia :| 0 <= ka < |levels| &&
      var row := MembersAtLevel(visible, levels[ka]);
      0 <= ia < |row| && a.member == row[ia] && a.position == Point(-95 * |row| + 80 + 190 * ia, 350 * ka);
    assert a.member in MembersAtLevel(visible, levels[ka]);
    k := ka;
  }

  // ---------------------------------------------------------------------------
  // Edges

  /** The member names a manager, and that manager is on the chart. */
  predicate HasVisibleManager(member: TeamMember, visible: seq<TeamMember>)
  {
    Truthy(member.reportsTo) && exists v :: v in visible && v.id == member.reportsTo.value
  }

  function EdgeFor(member: TeamMember, allLabIds: seq<Option<string>>,
                   hovered: Option<string>, highlighted: Option<string>): (e: FlowEdge)
    requires member.reportsTo.Some?
    requires member.labId in allLabIds
    ensures e.id == member.id + "-" + member.reportsTo.value
    ensures e.source == member.id && e.target == member.reportsTo.value
    ensures e.labId == member.labId && e.labColor == GetLabColor(member.labId, allLabIds)
    ensures e.strokeWidth == (if LabHighlighted(member, highlighted) || hovered == Some(e.id) then 2 else 1)
    ensures e.stroke == (if e.strokeWidth == 2 then e.labColor else EdgeColor)
  {
    var id := member.id + "-" + member.reportsTo.value;
    var color := GetLabColor(member.labId, allLabIds);
    var emphasised := LabHighlighted(member, highlighted) || hovered == Some(id);
    FlowEdge(id, member.id, member.reportsTo.value,
             if emphasised then 2 else 1, if emphasised then color else EdgeColor,
             member.labId, color)
  }

  /** The edges of the first `k` visible members. */
  function EdgesUpTo(visible: seq<TeamMember>, k: nat, allLabIds: seq<Option<string>>,
                     hovered: Option<string>, highlighted: Option<string>): seq<FlowEdge>
    requires k <= |visible|
    requires ColorsKnown(visible, allLabIds)
  {
    if k == 0 then []
    else
      var member := visible[k - 1];
      EdgesUpTo(visible, k - 1, allLabIds, hovered, highlighted)
      + if HasVisibleManager(member, visible) then [EdgeFor(member, allLabIds, hovered, highlighted)] else []
  }

  /** The edge list the advanced chart's effect builds. */
  function Edges(visible: seq<TeamMember>, hovered: Option<string>, highlighted: Option<string>): seq<FlowEdge>
  {
    EdgesUpTo(visible, |visible|, LabIdsOf(visible), hovered, highlighted)
  }

  /** Builds the reports-to edges member by member. */
  method BuildEdges(visible: seq<TeamMember>, hovered: Option<string>, highlighted: Option<string>)
    returns (edges: seq<FlowEdge>)
    ensures edges == Edges(visible, hovered, highlighted)
  {
    var allLabIds := LabIdsOf(visible);
    edges := [];
    for k := 0 to |visible|
      invariant edges == EdgesUpTo(visible, k, allLabIds, hovered, highlighted)
    {
      var member := visible[k];
      if member.reportsTo.Some? && member.reportsTo.value != ""
         && exists v :: v in visible && v.id == member.reportsTo.value {
        edges := edges + [EdgeFor(member, allLabIds, hovered, highlighted)];
      }
    }
  }

  /** An edge exists for a member exactly when the member names a manager
      who is on the chart; its id is `<member>-<manager>`, it runs from the
      member to the manager, and it is drawn 2 wide in the lab colour exactly
      when the member's lab is highlighted or the edge is hovered, otherwise
      1 wide in light grey. */
  lemma {:induction false} EdgesSpec(visible: seq<TeamMember>, hovered: Option<string>, highlighted: Option<string>)
    ensures forall m :: m in visible && HasVisibleManager(m, visible) ==>
      exists e :: e in Edges(visible, hovered, highlighted) && e.source == m.id && e.target == m.reportsTo.value
    ensures forall e :: e in Edges(visible, hovered, highlighted) ==>
      exists m :: m in visible && HasVisibleManager(m, visible) &&
        e.id == m.id + "-" + m.reportsTo.value && e.source == m.id && e.target == m.reportsTo.value &&
        e.labColor == GetLabColor(m.labId, LabIdsOf(visible)) &&
        e.strokeWidth == (if LabHighlighted(m, highlighted) || hovered == Some(e.id) then 2 else 1) &&
        e.stroke == (if e.strokeWidth == 2 then e.labColor else EdgeColor)
  {
    var allLabIds := LabIdsOf(visible);
    var edges := Edges(visible, hovered, highlighted);
    EdgesUpToComplete(visible, |visible|, allLabIds, hovered, highlighted);
    forall m | m in visible && HasVisibleManager(m, visible)
      ensures exists e :: e in edges && e.source == m.id && e.target == m.reportsTo.value
    {
      var e := EdgeFor(m, allLabIds, hovered, highlighted);
      assert e in edges && e.source == m.id && e.target == m.reportsTo.value;
    }
    forall e | e in edges
      ensures exists m ::
                m in visible && HasVisibleManager(m, visible) &&
                e.id == m.id + "-" + m.reportsTo.value && e.source == m.id && e.target == m.reportsTo.value &&
                e.labColor == GetLabColor(m.labId, allLabIds) &&
                e.strokeWidth == (if LabHighlighted(m, highlighted) || hovered == Some(e.id) then 2 else 1) &&
                e.stroke == (if e.strokeWidth == 2 then e.labColor else EdgeColor)
    {
      EdgeDrawnFor(visible, allLabIds, hovered, highlighted, e);
    }
  }

  /** An edge of the chart is the edge of one member with a visible manager. */
  lemma {:induction false} EdgeDrawnFor(visible: seq<TeamMember>, allLabIds: seq<Option<string>>,
                     hovered: Option<string>, highlighted: Option<string>, e: FlowEdge)
    requires allLabIds == LabIdsOf(visible)
    requires e in EdgesUpTo(visible, |visible|, allLabIds, hovered, highlighted)
    ensures exists m :: m in visible && HasVisibleManager(m, visible) && e == EdgeFor(m, allLabIds, hovered, highlighted)
  {
    EdgesUpToSound(visible, |visible|, allLabIds, hovered, highlighted);
    var i :| 0 <= i < |visible| && HasVisibleManager(visible[i], visible) &&
      e == EdgeFor(visible[i], allLabIds, hovered, highlighted);
    assert visible[i] in visible;
  }

  /** The edges of the first `k` members: those of the first `k - 1`, then
      the edge of member `k - 1` when it has a visible manager. */
  lemma {:induction false} EdgesUpToStep(visible: seq<TeamMember>, k: nat, allLabIds: seq<Option<string>>,
                      hovered: Option<string>, highlighted: Option<string>)
    requires 0 < k <= |visible|
    requires ColorsKnown(visible, allLabIds)
    ensures EdgesUpTo(visible, k, allLabIds, hovered, highlighted)
         == EdgesUpTo(visible, k - 1, allLabIds, hovered, highlighted)
            + if HasVisibleManager(visible[k - 1], visible)
              then [EdgeFor(visible[k - 1], allLabIds, hovered, highlighted)] else []
  {
  }

  /** Every member among the first `k` with a visible manager has its edge. */
  lemma {:induction false} EdgesUpToComplete(visible: seq<TeamMember>, k: nat, allLabIds: seq<Option<string>>,
                                            hovered: Option<string>, highlighted: Option<string>)
    requires k <= |visible|
    requires ColorsKnown(visible, allLabIds)
    ensures forall i :: 0 <= i < k && HasVisibleManager(visible[i], visible) ==>
      EdgeFor(visible[i], allLabIds, hovered, highlighted) in EdgesUpTo(visible, k, allLabIds, hovered, highlighted)
  {
    if k > 0 {
      EdgesUpToComplete(visible, k - 1, allLabIds, hovered, highlighted);
      EdgesUpToStep(visible, k, allLabIds, hovered, highlighted);
    }
  }

  /** Every edge of the first `k` members is the edge of one of them with a
      visible manager. */
  lemma {:induction false} EdgesUpToSound(visible: seq<TeamMember>, k: nat, allLabIds: seq<Option<string>>,
                                         hovered: Option<string>, highlighted: Option<string>)
    requires k <= |visible|
    requires ColorsKnown(visible, allLabIds)
    ensures forall e :: e in EdgesUpTo(visible, k, allLabIds, hovered, highlighted) ==>
      exists i :: 0 <= i < k && HasVisibleManager(visible[i], visible) &&
        e == EdgeFor(visible[i], allLabIds, hovered, highlighted)
  {
    if k > 0 {
      EdgesUpToSound(visible, k - 1, allLabIds, hovered, highlighted);
      EdgesUpToStep(visible, k, allLabIds, hovered, highlighted);
      var prev := EdgesUpTo(visible, k - 1, allLabIds, hovered, highlighted);
      forall e | e in EdgesUpTo(visible, k, allLabIds, hovered, highlighted)
        ensures exists i :: 0 <= i < k && HasVisibleManager(visible[i], visible) &&
                  e == EdgeFor(visible[i], allLabIds, hovered, highlighted)
      {
        if e !in prev {
          assert HasVisibleManager(visible[k - 1], visible) && e == EdgeFor(visible[k - 1], allLabIds, hovered, highlighted);
        }
      }
    }
  }

  // ===========================================================================
  // Direct reports

  /** The members that report to `managerId`, in list order. */
  function ReportsOf(managerId: string, members: seq<TeamMember>): seq<TeamMember>
  {
    Filter(members, ReportsTo(managerId))
  }

  function ReportsTo(managerId: string): TeamMember -> bool
  {
    (m: TeamMember) => m.reportsTo == Some(managerId)
  }

  /** `findDirectReports`: walks the levels and their members in order and
      collects those whose manager is `managerId`. */
  method FindDirectReports(managerId: string, teamData: TeamData) returns (reports: seq<TeamMember>)
    ensures reports == ReportsOf(managerId, Flatten(teamData))
  {
    reports := [];
    for li := 0 to |teamData|
      invariant reports == ReportsOf(managerId, Flatten(teamData[..li]))
    {
      var level := teamData[li];
      assert Flatten(teamData[..li]) + level[..0] == Flatten(teamData[..li]);
      for mi := 0 to |level|
        invariant reports == ReportsOf(managerId, Flatten(teamData[..li]) + level[..mi])
      {
        var member := level[mi];
        assert level[..mi + 1] == level[..mi] + [member];
        FilterAppend(Flatten(teamData[..li]) + level[..mi], [member], ReportsTo(managerId));
        assert Flatten(teamData[..li]) + level[..mi + 1] == Flatten(teamData[..li]) + level[..mi] + [member];
        if member.reportsTo == Some(managerId) {
          reports := reports + [member];
        }
      }
      assert level[..|level|] == level;
      FlattenSnoc(teamData, li);
    }
    assert teamData[..|teamData|] == teamData;
  }

  /** The direct reports are exactly the members, on any level, that name
      the manager, and they keep the level-then-position order. */
  lemma {:induction false} DirectReportsSpec(managerId: string, teamData: TeamData)
    ensures forall m :: m in ReportsOf(managerId, Flatten(teamData)) <==>
      m.reportsTo == Some(managerId) && exists i :: 0 <= i < |teamData| && m in teamData[i]
    ensures IsSubsequence(ReportsOf(managerId, Flatten(teamData)), Flatten(teamData))
  {
    FilterIsSubsequence(Flatten(teamData), ReportsTo(managerId));
    forall m ensures m in Flatten(teamData) <==> exists i :: 0 <= i < |teamData| && m in teamData[i] {
      InFlatten(teamData, m);
    }
  }

  // ===========================================================================
  // Hover state and the effect of the advanced chart

  /** The state of the advanced chart component. */
  class AdvancedChart {
    var nodes: seq<FlowNode>
    var edges: seq<FlowEdge>
    var hoveredElementId: Option<string>
    var highlightedLabId: Option<string>

    constructor ()
      ensures nodes == [] && edges == []
      ensures hoveredElementId == None && highlightedLabId == None
    {
      nodes, edges := [], [];
      hoveredElementId, highlightedLabId := None, None;
    }

    /** The effect that (re)builds nodes and edges; it keeps the previous
        ones when no member is visible. */
    method Refresh(teamData: TeamData, labIdFilter: Option<string>)
      modifies this
      ensures var visible := VisibleMembers(teamData, labIdFilter);
        if |visible| == 0 then nodes == old(nodes) && edges == old(edges)
        else (nodes == Layout(visible, hoveredElementId, highlightedLabId) &&
              edges == Edges(visible, hoveredElementId, highlightedLabId))
      ensures hoveredElementId == old(hoveredElementId) && highlightedLabId == old(highlightedLabId)
    {
      var visible := VisibleMembers(teamData, labIdFilter);
      if |visible| == 0 {
        return;
      }
      var newNodes := BuildNodes(visible, hoveredElementId, highlightedLabId);
      var newEdges := BuildEdges(visible, hoveredElementId, highlightedLabId);
      nodes, edges := newNodes, newEdges;
    }

    /** Entering a node hovers it and highlights its member's lab, if any. */
    method OnNodeMouseEnter(node: FlowNode)
      modifies this`hoveredElementId, this`highlightedLabId
      ensures hoveredElementId == Some(node.id)
      ensures highlightedLabId == if Truthy(node.member.labId) then node.member.labId else old(highlightedLabId)
    {
      hoveredElementId := Some(node.id);
      if Truthy(node.member.labId) {
        highlightedLabId := node.member.labId;
      }
    }

    /** Leaving a node clears both the hover and the highlight. */
    method OnNodeMouseLeave()
      modifies this`hoveredElementId, this`highlightedLabId
      ensures hoveredElementId == None && highlightedLabId == None
    {
      hoveredElementId := None;
      highlightedLabId := None;
    }

    /** Entering an edge hovers it and highlights the lab of the member at
        its source node, if that node exists and its member has a lab. */
    method OnEdgeMouseEnter(edge: FlowEdge)
      modifies this`hoveredElementId, this`highlightedLabId
      ensures hoveredElementId == Some(edge.id)
      ensures var source := FindNode(old(nodes), edge.source);
        highlightedLabId == if source.Some? && Truthy(source.value.member.labId)
                            then source.value.member.labId else old(highlightedLabId)
    {
      hoveredElementId := Some(edge.id);
      var source := FindNode(nodes, edge.source);
      if source.Some? && Truthy(source.value.member.labId) {
        highlightedLabId := source.value.member.labId;
      }
    }

    /** Leaving an edge clears both the hover and the highlight. */
    method OnEdgeMouseLeave()
      modifies this`hoveredElementId, this`highlightedLabId
      ensures hoveredElementId == None && highlightedLabId == None
    {
      hoveredElementId := None;
      highlightedLabId := None;
    }
  }

  /** `nodes.find(n => n.id === id)`: the first node with that id. */
  function FindNode(nodes: seq<FlowNode>, id: string): (r: Option<FlowNode>)
    ensures r.Some? <==> exists n :: n in nodes && n.id == id
    ensures r.Some? ==> r.value in nodes && r.value.id == id
    ensures r.Some? ==> exists i :: 0 <= i < |nodes| && nodes[i] == r.value && forall j :: 0 <= j < i ==> nodes[j].id != id
  {
    if nodes == [] then None
    else if nodes[0].id == id then Some(nodes[0])
    else
      var r := FindNode(nodes[1..], id);
      assert r.Some? ==> exists i :: 0 <= i < |nodes| && nodes[i] == r.value && forall j :: 0 <= j < i ==> nodes[j].id != id by {
        if r.Some? {
          var i :| 0 <= i < |nodes[1..]| && nodes[1..][i] == r.value && forall j :: 0 <= j < i ==> nodes[1..][j].id != id;
          assert nodes[i + 1] == r.value;
          forall j | 0 <= j < i + 1 ensures nodes[j].id != id {
            if j > 0 { assert nodes[j] == nodes[1..][j - 1]; }
          }
        }
      }
      r
  }
}
