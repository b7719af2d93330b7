/**
 * `BotExt.ReplyMenuConstructor`: the reply keyboard shown under the input
 * field, built from a list of button captions.
 */
module ReplyMenu {
  import opened RowLayout

  datatype ReplyMarkup = ReplyMarkup(
    resizeKeyboard: bool,
    oneTimeKeyboard: bool,
    removeKeyboard: bool,
    keyboard: seq<seq<string>>)

  /** `math.Ceil(n / m)` on integers. */
  function CeilDiv(n: nat, m: nat): (c: nat)
    requires m > 0
    ensures n <= c * m
    ensures c > 0 ==> (c - 1) * m < n
  {
    var q := (n + m - 1) / m;
    CeilDivBounds(n, m, q);
    q
  }

  lemma CeilDivBounds(n: nat, m: nat, q: nat)
    requires m > 0 && q == (n + m - 1) / m
    ensures n <= q * m
    ensures q > 0 ==> (q - 1) * m < n
  {
    var r := (n + m - 1) % m;
    assert n + m - 1 == q * m + r;
    if q > 0 {
      assert (q - 1) * m == q * m - m;
    }
  }

  /** Number of rows the keyboard is pre-sized with. */
  function RowCount(itemCount: nat, maxElementsInRow: nat): (c: nat)
    requires maxElementsInRow > 0
    ensures c >= 1
    ensures itemCount <= maxElementsInRow ==> c == 1
    ensures itemCount > maxElementsInRow ==> (c - 1) * maxElementsInRow < itemCount <= c * maxElementsInRow
  {
    if itemCount > maxElementsInRow then CeilDiv(itemCount, maxElementsInRow) else 1
  }

  function EmptyRows(n: nat): (rows: seq<seq<string>>)
    ensures |rows| == n && forall r | 0 <= r < n :: rows[r] == []
  {
    seq(n, _ => [])
  }

  /**
   * Builds the keyboard: `rowCount` empty rows (the slice is created with
   * that length and then appended to) followed by the packed captions.
   */
  method ReplyMenuConstructor(selections: seq<string>, maxElementsInRow: nat, once: bool) returns (menu: ReplyMarkup)
    requires maxElementsInRow > 0
    ensures menu.resizeKeyboard
    ensures menu.oneTimeKeyboard == once && menu.removeKeyboard == once
    ensures menu.keyboard
         == EmptyRows(RowCount(|selections|, maxElementsInRow)) + Layout(selections, IsSplitterText, maxElementsInRow)
  {
    var rowCount := RowCount(|selections|, maxElementsInRow);
    var buttons: seq<string> := [];
    var rows := EmptyRows(rowCount);
    for i := 0 to |selections|
      invariant var p := PackPrefix(selections, IsSplitterText, maxElementsInRow, i);
        rows == EmptyRows(rowCount) + p.rows && buttons == p.row
    {
      if i % maxElementsInRow == 0 || selections[i] == RowSplitterButton {
        if |buttons| != 0 {
          rows := rows + [buttons];
        }
        buttons := [];
      }
      if selections[i] != RowSplitterButton {
        buttons := buttons + [selections[i]];
      }
    }
    if |buttons| != 0 {
      rows := rows + [buttons];
    }
    menu := ReplyMarkup(true, once, once, rows);
  }

  /**
   * The keyboard after its leading empty rows: non-empty rows of at most
   * `maxElementsInRow` captions that read, in order, as the selections with
   * the splitters taken out; a row breaks at every index that is a multiple
   * of `maxElementsInRow` and at every splitter, and nowhere else.
   */
  lemma PackedRows(selections: seq<string>, maxElementsInRow: nat)
    requires maxElementsInRow > 0
    ensures RowsWellFormed(Layout(selections, IsSplitterText, maxElementsInRow), maxElementsInRow)
    ensures Flatten(Layout(selections, IsSplitterText, maxElementsInRow)) == Placed(selections, IsSplitterText)
    ensures forall j | 0 <= j < |Placed(selections, IsSplitterText)| ::
      Placed(selections, IsSplitterText)[j] != RowSplitterButton
    ensures Layout(selections, IsSplitterText, maxElementsInRow) == RowsByBreaks(selections, IsSplitterText, maxElementsInRow)
  {
    PlacedHasNoSplitter(selections, IsSplitterText);
    LayoutByBreaks(selections, IsSplitterText, maxElementsInRow);
  }

  /** The main user menu: five captions, two per row, behind three empty rows. */
  lemma MainUserMenuShape()
    ensures RowCount(5, 2) == 3
    ensures Layout(["A", "B", "C", "D", "E"], IsSplitterText, 2) == [["A", "B"], ["C", "D"], ["E"]]
  {
    FiveAtWidthTwo();
  }
}
