/**
 * The row layout of the value table (Code/ValueViewController.swift): for every
 * selected node one group row showing its key, followed by one row per locale
 * showing that locale's translation. The nodes themselves are opaque here (the
 * type parameter `N`); the table only places them.
 */
module ValueTable {

  class ValueTable<N> {
    /** `rowsPerNode`: one group row plus one row per locale, 0 until locales are set. */
    var rowsPerNode: nat
    var locales: seq<string>
    var nodes: seq<N>

    /** The `didSet` of `locales` keeps `rowsPerNode` in step. */
    predicate Valid()
      reads this
    {
      rowsPerNode == 1 + |locales| || (rowsPerNode == 0 && locales == [])
    }

    constructor()
      ensures Valid()
      ensures rowsPerNode == 0 && locales == [] && nodes == []
    {
      rowsPerNode := 0;
      locales := [];
      nodes := [];
    }

    /** Assigning `locales`, with its `didSet`. */
    method SetLocales(newLocales: seq<string>)
      modifies this
      ensures Valid()
      ensures locales == newLocales && rowsPerNode == 1 + |newLocales|
      ensures nodes == old(nodes)
    {
      locales := newLocales;
      rowsPerNode := 1 + |locales|;
    }

    /** Assigning `nodes`. */
    method SetNodes(newNodes: seq<N>)
      modifies this
      ensures nodes == newNodes
      ensures locales == old(locales) && rowsPerNode == old(rowsPerNode)
    {
      nodes := newNodes;
    }

    /** `numberOfRows(in:)`. */
    function NumberOfRows(): (n: nat)
      reads this
      ensures Valid() && locales != [] ==> n >= |nodes| * 2
      ensures n == 0 <==> nodes == [] || rowsPerNode == 0
    {
      |nodes| * rowsPerNode
    }

    /** `isGroupRow`, asked only of rows the table has. */
    predicate IsGroupRow(row: nat)
      reads this
      requires row < NumberOfRows()
    {
      row % rowsPerNode == 0
    }

    /** `nodeForRow`: the node a row belongs to. */
    function NodeForRow(row: nat): (node: N)
      reads this
      requires row < NumberOfRows()
      ensures node in nodes
    {
      LayoutBounds(row, |nodes|, rowsPerNode);
      nodes[row / rowsPerNode]
    }

    /** `localeForRow`: the locale of a translation row. */
    function LocaleForRow(row: nat): (locale: string)
      reads this
      requires Valid() && row < NumberOfRows() && !IsGroupRow(row)
      ensures locale in locales
    {
      locales[(row % rowsPerNode) - 1]
    }

    /**
     * Node `i` occupies row `i * rowsPerNode` as its group row, followed by one
     * translation row per locale, in the order of `locales`.
     */
    lemma Layout(i: nat, j: nat)
      requires Valid() && i < |nodes| && j < |locales|
      ensures i * rowsPerNode < NumberOfRows()
      ensures IsGroupRow(i * rowsPerNode) && NodeForRow(i * rowsPerNode) == nodes[i]
      ensures i * rowsPerNode + 1 + j < NumberOfRows()
      ensures !IsGroupRow(i * rowsPerNode + 1 + j)
      ensures NodeForRow(i * rowsPerNode + 1 + j) == nodes[i]
      ensures LocaleForRow(i * rowsPerNode + 1 + j) == locales[j]
    {
      RowOfNode(i, 0, rowsPerNode, |nodes|);
      RowOfNode(i, 1 + j, rowsPerNode, |nodes|);
    }

    /** Every row of the table is one of those: a group row or a translation row of one node. */
    lemma RowDecomposition(row: nat)
      requires Valid() && row < NumberOfRows()
      ensures row == (row / rowsPerNode) * rowsPerNode + row % rowsPerNode
      ensures row / rowsPerNode < |nodes|
      ensures IsGroupRow(row) <==> row % rowsPerNode == 0
      ensures !IsGroupRow(row) ==> (row % rowsPerNode) - 1 < |locales|
    {
      LayoutBounds(row, |nodes|, rowsPerNode);
    }
  }

  /** A row below `count * width` lies in one of the `count` blocks. */
  lemma LayoutBounds(row: nat, count: nat, width: nat)
    requires row < count * width
    ensures width > 0 && row / width < count
    ensures row == (row / width) * width + row % width
  {
    if width == 0 {
      assert false;
    } else if row / width >= count {
      assert false;
    }
  }

  /** Offset `k` within block `i` is row `i * width + k`. */
  lemma RowOfNode(i: nat, k: nat, width: nat, count: nat)
    requires i < count && k < width
    ensures i * width + k < count * width
    ensures (i * width + k) / width == i && (i * width + k) % width == k
  {
    assert (i + 1) * width <= count * width;
    DivModUnique(i * width + k, width, i, k);
  }

  /** Quotient and remainder are the only such pair. */
  lemma DivModUnique(n: nat, width: nat, q: nat, r: nat)
    requires r < width && n == q * width + r
    ensures n / width == q && n % width == r
  {
    var d := q - n / width;
    assert d * width == q * width - (n / width) * width;
    ZeroMultiple(d, width);
  }

  /** The only multiple of `width` strictly between `-width` and `width` is 0. */
  lemma ZeroMultiple(d: int, width: nat)
    requires -(width as int) < d * width < width
    ensures d == 0
  {
    if d >= 1 {
      MultipleAtLeast(d, width);
      assert false;
    } else if d <= -1 {
      MultipleAtLeast(-d, width);
      assert false;
    }
  }

  lemma MultipleAtLeast(d: int, width: nat)
    requires d >= 1
    ensures d * width >= width
  {
    assert d * width == (d - 1) * width + width;
  }
}
