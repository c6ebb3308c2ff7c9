/** The binary routing game. Four row toggles steer a marble down a perfect
    binary tree of 15 nodes, stored level by level (the children of node i are
    2i+1 on the left and 2i+2 on the right), into one of 16 bins. Waypoints of
    the marble's path are kept symbolic: which node or bin they belong to, not
    where it is drawn. */
module RamiStore {

  datatype Option<T> = None | Some(value: T)

  /** Number of toggle rows, one per tree level. */
  const Rows: nat := 4
  /** Number of tree nodes, levels 0 to 3. */
  const NodeCount: nat := 15

  /** A point of a marble path, named by what it is attached to. */
  datatype Waypoint =
    | FallStart           // high above the root, where the fall begins
    | AboveRoot           // just above the root
    | NodeTop(node: nat)
    | NodeBottom(node: nat)
    | NodeCenter(node: nat)
    | BinTop(bin: int)
    | BinCenter(bin: int)

  function Pow2(n: nat): (p: nat)
    ensures p >= 1
  {
    if n == 0 then 1 else 2 * Pow2(n - 1)
  }

  function Bit(b: bool): nat
  {
    if b then 1 else 0
  }

  // ---------------------------------------------------------------------------
  // The walk down the tree

  /** The child taken at node `i`: the right one when the row is toggled. */
  function Child(i: nat, isRight: bool): nat
  {
    if isRight then 2 * i + 2 else 2 * i + 1
  }

  /** The node reached after the first `level` rows. */
  function NodeAt(rows: seq<bool>, level: nat): nat
    requires level <= |rows|
  {
    if level == 0 then 0 else Child(NodeAt(rows, level - 1), rows[level - 1])
  }

  /** The bin under the level-3 node: twice its offset among the leaves, plus
      one when the last row goes right. */
  function BinOf(rows: seq<bool>): (bin: int)
    requires |rows| == Rows
    ensures 0 <= bin < 16
  {
    NodeLevelRange(rows, 3);
    assert Pow2(3) == 8 && Pow2(4) == 16;
    var relativeIndex := NodeAt(rows, 3) - 7;
    if rows[3] then 2 * relativeIndex + 1 else 2 * relativeIndex
  }

  /** The rows read as a binary number, the first row most significant. */
  function BitsValue(bits: seq<bool>): (v: nat)
    ensures v < Pow2(|bits|)
  {
    if bits == [] then 0 else 2 * BitsValue(bits[..|bits| - 1]) + Bit(bits[|bits| - 1])
  }

  /** The node after `level` rows is the first node of that level plus the
      rows taken so far read as a binary number. */
  lemma {:induction false} NodeAtIsValue(rows: seq<bool>, level: nat)
    requires level <= |rows|
    ensures NodeAt(rows, level) == Pow2(level) - 1 + BitsValue(rows[..level])
  {
    if level > 0 {
      NodeAtIsValue(rows, level - 1);
      assert rows[..level][..level - 1] == rows[..level - 1];
    }
  }

  /** The walk is at tree level `level` after `level` rows: its node lies in
      [2^level - 1, 2^(level+1) - 2]. */
  lemma NodeLevelRange(rows: seq<bool>, level: nat)
    requires level <= |rows|
    ensures Pow2(level) - 1 <= NodeAt(rows, level) <= Pow2(level + 1) - 2
  {
    NodeAtIsValue(rows, level);
  }

  /** Each step of the walk goes from a node to one of its two children, and
      the node is the parent of the next one. */
  lemma WalkGoesToChild(rows: seq<bool>, level: nat)
    requires level < |rows|
    ensures NodeAt(rows, level + 1) in {2 * NodeAt(rows, level) + 1, 2 * NodeAt(rows, level) + 2}
    ensures (NodeAt(rows, level + 1) - 1) / 2 == NodeAt(rows, level)
  {
  }

  /** The bin reached is the four rows read as a binary number, first row most
      significant; so it is one of the 16 bins, and it is the last tree step
      taken one level further, counted from the first bin. */
  lemma BinIsValue(rows: seq<bool>)
    requires |rows| == Rows
    ensures BinOf(rows) == BitsValue(rows)
    ensures BinOf(rows) == 8 * Bit(rows[0]) + 4 * Bit(rows[1]) + 2 * Bit(rows[2]) + Bit(rows[3])
    ensures 0 <= BinOf(rows) < 16
    ensures BinOf(rows) == NodeAt(rows, 4) - 15
  {
    NodeAtIsValue(rows, 3);
    PrefixValues(rows);
    assert rows[..4] == rows;
  }

  /** The values of the first one, two and three rows, digit by digit. */
  lemma PrefixValues(rows: seq<bool>)
    requires |rows| == Rows
    ensures BitsValue(rows[..1]) == Bit(rows[0])
    ensures BitsValue(rows[..2]) == 2 * Bit(rows[0]) + Bit(rows[1])
    ensures BitsValue(rows[..3]) == 4 * Bit(rows[0]) + 2 * Bit(rows[1]) + Bit(rows[2])
  {
    assert rows[..3][..2] == rows[..2] && rows[..3][2] == rows[2];
    assert rows[..2][..1] == rows[..1] && rows[..2][1] == rows[1];
    assert rows[..1][..0] == [] && rows[..1][0] == rows[0];
  }

  /** The rows that lead to bin `bin`: its four binary digits. */
  function RowsForBin(bin: int): (rows: seq<bool>)
    requires 0 <= bin < 16
    ensures |rows| == Rows
  {
    [bin >= 8, bin % 8 >= 4, bin % 4 >= 2, bin % 2 == 1]
  }

  /** Rows and bins are in one-to-one correspondence. */
  lemma BinRoundTrip(rows: seq<bool>, bin: int)
    requires |rows| == Rows && 0 <= bin < 16
    ensures BinOf(RowsForBin(bin)) == bin
    ensures RowsForBin(BinOf(rows)) == rows
  {
    BinIsValue(RowsForBin(bin));
    BinIsValue(rows);
  }

  /** Different rows lead to different bins. */
  lemma BinInjective(rows1: seq<bool>, rows2: seq<bool>)
    requires |rows1| == Rows && |rows2| == Rows
    ensures BinOf(rows1) == BinOf(rows2) <==> rows1 == rows2
  {
    BinRoundTrip(rows1, 0);
    BinRoundTrip(rows2, 0);
  }

  /** Flipping row `level` moves the marble 2^(3-level) bins: right when the
      row was off, left when it was on. */
  lemma ToggleShiftsBin(rows: seq<bool>, level: nat)
    requires |rows| == Rows && level < Rows
    ensures BinOf(rows[level := !rows[level]])
            == BinOf(rows) + (if rows[level] then -(Pow2(3 - level) as int) else Pow2(3 - level))
  {
    BinIsValue(rows);
    BinIsValue(rows[level := !rows[level]]);
    assert Pow2(0) == 1 && Pow2(1) == 2 && Pow2(2) == 4 && Pow2(3) == 8;
  }

  lemma BinExamples()
    ensures BinOf([false, false, false, false]) == 0
    ensures BinOf([true, true, true, true]) == 15
    ensures BinOf([true, false, true, false]) == 10
  {
    BinIsValue([false, false, false, false]);
    BinIsValue([true, true, true, true]);
    BinIsValue([true, false, true, false]);
  }

  // ---------------------------------------------------------------------------
  // Levels of the node array

  /** `getLevel`: the tree level of node `index`. Indices outside 0..14 are
      not guarded: a negative index lands in level 1, a large one in level 3. */
  function GetLevel(index: int): (level: nat)
    ensures level < Rows
  {
    if index == 0 then 0
    else if index <= 2 then 1
    else if index <= 6 then 2
    else 3
  }

  /** Node `i` is at level `level` exactly when 2^level - 1 <= i <= 2^(level+1) - 2. */
  lemma GetLevelIsTreeLevel(i: int, level: nat)
    requires 0 <= i < NodeCount && level < Rows
    ensures GetLevel(i) == level <==> Pow2(level) - 1 <= i <= Pow2(level + 1) - 2
  {
    assert Pow2(0) == 1 && Pow2(1) == 2 && Pow2(2) == 4 && Pow2(3) == 8 && Pow2(4) == 16;
  }

  /** The node the walk visits after `level` rows is at level `level`. */
  lemma VisitedNodeLevel(rows: seq<bool>, level: nat)
    requires level < Rows && level <= |rows|
    ensures NodeAt(rows, level) < NodeCount
    ensures GetLevel(NodeAt(rows, level)) == level
  {
    NodeLevelRange(rows, level);
    assert Pow2(1) == 2 && Pow2(2) == 4 && Pow2(3) == 8 && Pow2(4) == 16;
    GetLevelIsTreeLevel(NodeAt(rows, level), level);
  }

  // ---------------------------------------------------------------------------
  // Paths

  /** The top and bottom of the nodes visited at levels 1 to `level`. */
  function Descent(rows: seq<bool>, level: nat): (points: seq<Waypoint>)
    requires level <= |rows|
    ensures |points| == 2 * level
  {
    if level == 0 then []
    else Descent(rows, level - 1) + [NodeTop(NodeAt(rows, level)), NodeBottom(NodeAt(rows, level))]
  }

  /** The animated fall: the two entry points, through the root and the nodes of
      levels 1 to 3, into the bin. */
  function FallPath(rows: seq<bool>): seq<Waypoint>
    requires |rows| == Rows
  {
    [FallStart, AboveRoot, NodeTop(0), NodeBottom(0)] + Descent(rows, 3)
      + [BinTop(BinOf(rows)), BinCenter(BinOf(rows))]
  }

  /** The centres of the nodes visited at levels 0 to `level`. */
  function Centers(rows: seq<bool>, level: nat): (points: seq<Waypoint>)
    requires level <= |rows|
    ensures |points| == level + 1
  {
    if level == 0 then [NodeCenter(0)] else Centers(rows, level - 1) + [NodeCenter(NodeAt(rows, level))]
  }

  /** The preview: the centre of every visited node, then the bin. */
  function PreviewPath(rows: seq<bool>): seq<Waypoint>
    requires |rows| == Rows
  {
    Centers(rows, 3) + [BinCenter(BinOf(rows))]
  }

  lemma {:induction false} DescentAt(rows: seq<bool>, level: nat, k: nat)
    requires level <= |rows| && 1 <= k <= level
    ensures Descent(rows, level)[2 * k - 2] == NodeTop(NodeAt(rows, k))
    ensures Descent(rows, level)[2 * k - 1] == NodeBottom(NodeAt(rows, k))
  {
    if k < level {
      DescentAt(rows, level - 1, k);
    }
  }

  lemma {:induction false} CentersAt(rows: seq<bool>, level: nat, k: nat)
    requires level <= |rows| && k <= level
    ensures Centers(rows, level)[k] == NodeCenter(NodeAt(rows, k))
  {
    if k < level {
      CentersAt(rows, level - 1, k);
    }
  }

  /** The fall has 12 waypoints and the preview 5. They pass through the same
      nodes in the same order (a top and a bottom for each node of the fall,
      a centre for each node of the preview) and end in the same bin. */
  lemma FallFollowsPreview(rows: seq<bool>)
    requires |rows| == Rows
    ensures |FallPath(rows)| == 12 && |PreviewPath(rows)| == 5
    ensures FallPath(rows)[0] == FallStart && FallPath(rows)[1] == AboveRoot
    ensures forall k :: 0 <= k < Rows ==>
              && FallPath(rows)[2 * k + 2] == NodeTop(NodeAt(rows, k))
              && FallPath(rows)[2 * k + 3] == NodeBottom(NodeAt(rows, k))
              && PreviewPath(rows)[k] == NodeCenter(NodeAt(rows, k))
    ensures FallPath(rows)[10] == BinTop(BinOf(rows))
    ensures FallPath(rows)[11] == PreviewPath(rows)[4] == BinCenter(BinOf(rows))
  {
    forall k | 0 <= k < Rows
      ensures FallPath(rows)[2 * k + 2] == NodeTop(NodeAt(rows, k))
      ensures FallPath(rows)[2 * k + 3] == NodeBottom(NodeAt(rows, k))
      ensures PreviewPath(rows)[k] == NodeCenter(NodeAt(rows, k))
    {
      if k > 0 {
        DescentAt(rows, 3, k);
      }
      CentersAt(rows, 3, k);
    }
  }

  /** `child` and `parent` are node centres and the first node is a child of the second. */
  predicate IsChildCenter(child: Waypoint, parent: Waypoint)
  {
    && child.NodeCenter? && parent.NodeCenter?
    && child.node in {2 * parent.node + 1, 2 * parent.node + 2}
  }

  /** Consecutive points of the preview go from a node to its child, and the
      bin hangs under the last node: bins 2j and 2j+1 under leaf 7+j. */
  lemma PreviewDescends(rows: seq<bool>)
    requires |rows| == Rows
    ensures forall k :: 0 < k < Rows ==> IsChildCenter(PreviewPath(rows)[k], PreviewPath(rows)[k - 1])
    ensures PreviewPath(rows)[3].NodeCenter? && PreviewPath(rows)[4].BinCenter?
    ensures 7 + PreviewPath(rows)[4].bin / 2 == PreviewPath(rows)[3].node
  {
    FallFollowsPreview(rows);
    forall k | 0 < k < Rows
      ensures IsChildCenter(PreviewPath(rows)[k], PreviewPath(rows)[k - 1])
    {
      WalkGoesToChild(rows, k - 1);
    }
    NodeLevelRange(rows, 3);
    assert Pow2(3) == 8 && Pow2(4) == 16;
  }

  // ---------------------------------------------------------------------------
  // The store

  class GameStore {
    var rowStates: seq<bool>
    var pathPoints: Option<seq<Waypoint>>
    var isPlaying: bool
    var targetBin: Option<int>
    var showResultModal: bool
    var showHelp: bool
    var showPathPreview: bool

    /** There is one toggle per tree level. */
    ghost predicate Valid()
      reads this
    {
      |rowStates| == Rows
    }

    /** The initial store: every row off, nothing playing, nothing shown. */
    constructor ()
      ensures Valid()
      ensures rowStates == [false, false, false, false] && pathPoints == None && targetBin == None
      ensures !isPlaying && !showResultModal && !showHelp && !showPathPreview
    {
      rowStates := [false, false, false, false];
      pathPoints := None;
      isPlaying := false;
      targetBin := None;
      showResultModal := false;
      showHelp := false;
      showPathPreview := false;
    }

    /** `toggleRow`: locked while playing; otherwise flips exactly row `level`. */
    method ToggleRow(level: nat)
      requires Valid() && level < Rows
      modifies this`rowStates
      ensures Valid()
      ensures old(isPlaying) ==> rowStates == old(rowStates)
      ensures !old(isPlaying) ==> rowStates == old(rowStates)[level := !old(rowStates)[level]]
    {
      if isPlaying {
        return;
      }
      var newRows := rowStates;
      newRows := newRows[level := !newRows[level]];
      rowStates := newRows;
    }

    /** `startGame`: ignored while playing; otherwise computes the fall through
        the tree, records the bin it ends in and starts playing. */
    method StartGame()
      requires Valid()
      modifies this
      ensures Valid()
      ensures old(isPlaying) ==> unchanged(this)
      ensures !old(isPlaying) ==>
                && pathPoints == Some(FallPath(rowStates))
                && targetBin == Some(BinOf(rowStates))
                && isPlaying && !showResultModal
                && unchanged(this`rowStates, this`showHelp, this`showPathPreview)
    {
      if isPlaying {
        return;
      }
      var rows := rowStates;
      var points: seq<Waypoint> := [FallStart, AboveRoot];
      var currentIndex: nat := 0;
      points := points + [NodeTop(0), NodeBottom(0)];
      for level := 0 to Rows
        invariant rowStates == rows && unchanged(this`showHelp, this`showPathPreview)
        invariant level <= 3 ==>
                    currentIndex == NodeAt(rows, level)
                    && points == [FallStart, AboveRoot, NodeTop(0), NodeBottom(0)] + Descent(rows, level)
        invariant level == Rows ==> points == FallPath(rows) && targetBin == Some(BinOf(rows))
      {
        var isRight := rows[level];
        var nextIndex := if isRight then 2 * currentIndex + 2 else 2 * currentIndex + 1;
        if level < 3 {
          points := points + [NodeTop(nextIndex), NodeBottom(nextIndex)];
          currentIndex := nextIndex;
        } else {
          var relativeIndex := currentIndex - 7;
          var binIndex := if isRight then 2 * relativeIndex + 1 else 2 * relativeIndex;
          points := points + [BinTop(binIndex), BinCenter(binIndex)];
          targetBin := Some(binIndex);
        }
      }
      isPlaying, pathPoints, showResultModal := true, Some(points), false;
    }

    /** `finishGame`: the marble has landed; show the result. */
    method FinishGame()
      requires Valid()
      modifies this`isPlaying, this`showResultModal
      ensures Valid()
      ensures !isPlaying && showResultModal
    {
      isPlaying, showResultModal := false, true;
    }

    /** `resetGame`: every row off; nothing else changes. */
    method ResetGame()
      requires Valid()
      modifies this`rowStates
      ensures Valid()
      ensures rowStates == [false, false, false, false]
    {
      rowStates := [false, false, false, false];
    }

    /** `closeModal`. */
    method CloseModal()
      requires Valid()
      modifies this`showResultModal
      ensures Valid()
      ensures !showResultModal
    {
      showResultModal := false;
    }

    /** `toggleHelp`. */
    method ToggleHelp()
      requires Valid()
      modifies this`showHelp
      ensures Valid()
      ensures showHelp == !old(showHelp)
    {
      showHelp := !showHelp;
    }

    /** `togglePathPreview`. */
    method TogglePathPreview()
      requires Valid()
      modifies this`showPathPreview
      ensures Valid()
      ensures showPathPreview == !old(showPathPreview)
    {
      showPathPreview := !showPathPreview;
    }

    /** `getNodeStates`: one flag per node, the flag of the node's row. Every
        node of level L (indices 2^L - 1 to 2^(L+1) - 2) shows row L, so in
        particular every node the walk visits shows the row that steers it. */
    function GetNodeStates(): (states: seq<bool>)
      reads this
      requires Valid()
      ensures |states| == NodeCount
      ensures forall level: nat, i :: level < Rows && 0 <= i < NodeCount && Pow2(level) - 1 <= i <= Pow2(level + 1) - 2
                ==> states[i] == rowStates[level]
      ensures forall level: nat :: level < Rows ==>
                NodeAt(rowStates, level) < NodeCount && states[NodeAt(rowStates, level)] == rowStates[level]
    {
      LevelsOfNodes();
      VisitedNodeLevels(rowStates);
      var rows := rowStates;
      seq(NodeCount, i requires 0 <= i < NodeCount => rows[GetLevel(i)])
    }

    /** `calculatePreviewPath`: the preview for the current rows. */
    method CalculatePreviewPath() returns (points: seq<Waypoint>)
      requires Valid()
      ensures points == PreviewPath(rowStates)
    {
      var rows := rowStates;
      points := [NodeCenter(0)];
      var currentIndex: nat := 0;
      for level := 0 to Rows
        invariant level <= 3 ==> currentIndex == NodeAt(rows, level) && points == Centers(rows, level)
        invariant level == Rows ==> points == PreviewPath(rows)
      {
        var isRight := rows[level];
        var nextIndex := if isRight then 2 * currentIndex + 2 else 2 * currentIndex + 1;
        if level < 3 {
          points := points + [NodeCenter(nextIndex)];
          currentIndex := nextIndex;
        } else {
          var relativeIndex := currentIndex - 7;
          var binIndex := if isRight then 2 * relativeIndex + 1 else 2 * relativeIndex;
          points := points + [BinCenter(binIndex)];
        }
      }
    }
  }

  lemma LevelsOfNodes()
    ensures forall level: nat, i :: level < Rows && 0 <= i < NodeCount ==>
              (GetLevel(i) == level <==> Pow2(level) - 1 <= i <= Pow2(level + 1) - 2)
  {
    forall level: nat, i | level < Rows && 0 <= i < NodeCount
      ensures GetLevel(i) == level <==> Pow2(level) - 1 <= i <= Pow2(level + 1) - 2
    {
      GetLevelIsTreeLevel(i, level);
    }
  }

  lemma VisitedNodeLevels(rows: seq<bool>)
    requires |rows| == Rows
    ensures forall level: nat :: level < Rows ==>
              NodeAt(rows, level) < NodeCount && GetLevel(NodeAt(rows, level)) == level
  {
    forall level: nat | level < Rows
      ensures NodeAt(rows, level) < NodeCount && GetLevel(NodeAt(rows, level)) == level
    {
      VisitedNodeLevel(rows, level);
    }
  }
}
