/**
 * The row-packing rule shared by the inline and the reply keyboards of
 * BotExt: items are placed left to right; a new row starts at every index
 * that is a multiple of the row width (the index counts splitters too) and
 * at every row-break sentinel, which is itself never placed; empty rows are
 * never emitted.
 */
module RowLayout {
  /** The `Unique` (or reply text) that forces a row break. */
  const RowSplitterButton: string := "__SPLITTER__"

  /** Loop state after some prefix: the closed rows and the open one. */
  datatype Packing<T> = Packing(rows: seq<seq<T>>, row: seq<T>)

  /** One pass of the placement loop over the item at index `i`. */
  function Place<T>(p: Packing<T>, i: nat, item: T, splitter: bool, width: nat): Packing<T>
    requires width > 0
  {
    var p1 :=
      if i % width == 0 || splitter then
        Packing(if |p.row| != 0 then p.rows + [p.row] else p.rows, [])
      else p;
    if splitter then p1 else p1.(row := p1.row + [item])
  }

  /** Loop state after the first `k` items. */
  function PackPrefix<T>(items: seq<T>, isSplitter: T -> bool, width: nat, k: nat): Packing<T>
    requires width > 0 && k <= |items|
  {
    if k == 0 then Packing([], [])
    else Place(PackPrefix(items, isSplitter, width, k - 1), k - 1, items[k - 1], isSplitter(items[k - 1]), width)
  }

  /** Concatenation of rows, in order. */
  function Flatten<T>(rows: seq<seq<T>>): seq<T>
  {
    if |rows| == 0 then [] else Flatten(rows[..|rows| - 1]) + rows[|rows| - 1]
  }

  /** The items that are not splitters, in order. */
  function Placed<T>(items: seq<T>, isSplitter: T -> bool): seq<T>
  {
    if |items| == 0 then []
    else
      var last := items[|items| - 1];
      Placed(items[..|items| - 1], isSplitter) + (if isSplitter(last) then [] else [last])
  }

  predicate RowsWellFormed<T>(rows: seq<seq<T>>, width: nat)
  {
    forall r | 0 <= r < |rows| :: 0 < |rows[r]| <= width
  }

  lemma FlattenSnoc<T>(rows: seq<seq<T>>, r: seq<T>)
    ensures Flatten(rows + [r]) == Flatten(rows) + r
  {
    assert (rows + [r])[..|rows|] == rows;
  }

  lemma MulAtLeast(k: nat, w: nat)
    requires k >= 1
    ensures k * w >= w
  {
    assert k * w == (k - 1) * w + w;
  }

  lemma DivModUnique(a: nat, width: nat, q: nat, r: nat)
    requires width > 0 && r < width && a == q * width + r
    ensures a / width == q && a % width == r
  {
    var q', r' := a / width, a % width;
    assert a == q' * width + r';
    if q' < q {
      assert q * width == (q - q') * width + q' * width;
      MulAtLeast(q - q', width);
      assert false;
    } else if q' > q {
      assert q' * width == (q' - q) * width + q * width;
      MulAtLeast(q' - q, width);
      assert false;
    }
  }

  lemma ModStep(i: nat, width: nat)
    requires width > 0 && i > 0 && i % width != 0
    ensures i % width == (i - 1) % width + 1
    ensures i / width == (i - 1) / width
  {
    var q, r := i / width, i % width;
    assert i == q * width + r;
    DivModUnique(i - 1, width, q, r - 1);
  }

  lemma ModZeroStep(i: nat, width: nat)
    requires width > 0 && i > 0 && i % width == 0
    ensures (i - 1) / width * width + width == i
    ensures ((i - 1) / width * width) % width == 0
  {
    var q := i / width;
    assert i == q * width;
    assert q >= 1;
    assert i - 1 == (q - 1) * width + (width - 1);
    DivModUnique(i - 1, width, q - 1, width - 1);
    DivModUnique((q - 1) * width, width, q - 1, 0);
  }

  /**
   * Shape half of the loop invariant: closed rows are non-empty and at most
   * `width` long, and the open row is no longer than the distance from the
   * last multiple of `width`.
   */
  lemma {:induction false} PackPrefixShape<T>(items: seq<T>, isSplitter: T -> bool, width: nat, k: nat)
    requires width > 0 && k <= |items|
    ensures RowsWellFormed(PackPrefix(items, isSplitter, width, k).rows, width)
    ensures |PackPrefix(items, isSplitter, width, k).row| <= (if k == 0 then 0 else (k - 1) % width + 1)
  {
    if k > 0 {
      var i := k - 1;
      PackPrefixShape(items, isSplitter, width, i);
      if i > 0 && i % width != 0 {
        ModStep(i, width);
      }
    }
  }

  /** Content half of the loop invariant: rows then open row are the placed items of the prefix. */
  lemma {:induction false} PackPrefixContent<T>(items: seq<T>, isSplitter: T -> bool, width: nat, k: nat)
    requires width > 0 && k <= |items|
    ensures Flatten(PackPrefix(items, isSplitter, width, k).rows) + PackPrefix(items, isSplitter, width, k).row
         == Placed(items[..k], isSplitter)
  {
    if k > 0 {
      var i := k - 1;
      PackPrefixContent(items, isSplitter, width, i);
      var p := PackPrefix(items, isSplitter, width, i);
      var item := items[i];
      var splitter := isSplitter(item);
      assert items[..k][..i] == items[..i] && items[..k][i] == item;
      assert Placed(items[..k], isSplitter) == Placed(items[..i], isSplitter) + (if splitter then [] else [item]);
      var p1 :=
        if i % width == 0 || splitter then
          Packing(if |p.row| != 0 then p.rows + [p.row] else p.rows, [])
        else p;
      assert Flatten(p1.rows) + p1.row == Flatten(p.rows) + p.row by {
        if |p.row| != 0 {
          FlattenSnoc(p.rows, p.row);
        }
      }
      assert PackPrefix(items, isSplitter, width, k) == (if splitter then p1 else p1.(row := p1.row + [item]));
    }
  }

  /** The keyboard a packing loop ends with: its rows plus the open row if non-empty. */
  function Layout<T>(items: seq<T>, isSplitter: T -> bool, width: nat): (rows: seq<seq<T>>)
    requires width > 0
    ensures RowsWellFormed(rows, width)
    ensures Flatten(rows) == Placed(items, isSplitter)
  {
    var p := PackPrefix(items, isSplitter, width, |items|);
    PackPrefixShape(items, isSplitter, width, |items|);
    PackPrefixContent(items, isSplitter, width, |items|);
    assert items[..|items|] == items;
    if |p.row| != 0 then
      FlattenSnoc(p.rows, p.row);
      p.rows + [p.row]
    else p.rows
  }

  // ------------------------------------------------ no splitter: plain chunks

  /** Consecutive chunks of `width` items, the last one possibly shorter. */
  function Chunks<T>(s: seq<T>, width: nat): (rows: seq<seq<T>>)
    requires width > 0
    ensures RowsWellFormed(rows, width)
    ensures Flatten(rows) == s
    decreases |s|
  {
    if |s| == 0 then []
    else if |s| <= width then
      FlattenSnoc([], s);
      [s]
    else
      var rest := Chunks(s[width..], width);
      FlattenCons(s[..width], rest);
      assert s == s[..width] + s[width..];
      [s[..width]] + rest
  }

  lemma {:induction false} FlattenCons<T>(r: seq<T>, rows: seq<seq<T>>)
    ensures Flatten([r] + rows) == r + Flatten(rows)
    decreases |rows|
  {
    if |rows| == 0 {
      assert [r] + rows == [r];
      FlattenSnoc([], r);
    } else {
      var init := rows[..|rows| - 1];
      var last := rows[|rows| - 1];
      assert [r] + rows == ([r] + init) + [last];
      assert rows == init + [last];
      FlattenSnoc([r] + init, last);
      FlattenSnoc(init, last);
      FlattenCons(r, init);
    }
  }

  /** Appending one more chunk after a whole number of full chunks. */
  lemma {:induction false} ChunksAppend<T>(a: seq<T>, b: seq<T>, width: nat)
    requires width > 0 && |a| % width == 0 && 0 < |b| <= width
    ensures Chunks(a + b, width) == Chunks(a, width) + [b]
    decreases |a|
  {
    if |a| == 0 {
      assert a + b == b;
    } else {
      assert |a| >= width by {
        if |a| < width { DivModUnique(|a|, width, 0, |a|); }
      }
      assert (a + b)[..width] == a[..width];
      assert (a + b)[width..] == a[width..] + b;
      DivModUnique(|a|, width, |a| / width, 0);
      DivModUnique(|a| - width, width, |a| / width - 1, 0);
      ChunksAppend(a[width..], b, width);
      if |a| == width {
        assert a[width..] == [];
        assert a[width..] + b == b;
      }
    }
  }

  /** The splitter is never placed. */
  lemma {:induction false} PlacedHasNoSplitter<T>(items: seq<T>, isSplitter: T -> bool)
    ensures forall j | 0 <= j < |Placed(items, isSplitter)| :: !isSplitter(Placed(items, isSplitter)[j])
  {
    if |items| > 0 {
      PlacedHasNoSplitter(items[..|items| - 1], isSplitter);
    }
  }

  /** With no splitter present every item is placed. */
  lemma {:induction false} PlacedAll<T>(items: seq<T>, isSplitter: T -> bool)
    requires forall j | 0 <= j < |items| :: !isSplitter(items[j])
    ensures Placed(items, isSplitter) == items
  {
    if |items| > 0 {
      PlacedAll(items[..|items| - 1], isSplitter);
      assert items == items[..|items| - 1] + [items[|items| - 1]];
    }
  }

  /**
   * Without splitters the loop state, inside the chunk that starts at the
   * multiple `s` of `width`, is "full chunks before `s`, then the open chunk".
   */
  lemma {:induction false} PackPrefixChunks<T>(items: seq<T>, isSplitter: T -> bool, width: nat, s: nat, k: nat)
    requires width > 0 && k <= |items|
    requires forall j | 0 <= j < |items| :: !isSplitter(items[j])
    requires s % width == 0 && s < k <= s + width
    ensures PackPrefix(items, isSplitter, width, k) == Packing(Chunks(items[..s], width), items[s..k])
    decreases k, 2
  {
    if k - 1 == s {
      ChunkOpens(items, isSplitter, width, s);
    } else {
      ChunkGrows(items, isSplitter, width, s, k);
    }
  }

  /** The first item of a chunk opens a fresh row after the full chunks before it. */
  lemma {:induction false} ChunkOpens<T>(items: seq<T>, isSplitter: T -> bool, width: nat, s: nat)
    requires width > 0 && s < |items|
    requires forall j | 0 <= j < |items| :: !isSplitter(items[j])
    requires s % width == 0
    ensures PackPrefix(items, isSplitter, width, s + 1) == Packing(Chunks(items[..s], width), items[s..s + 1])
    decreases s + 1, 1
  {
    var item := items[s];
    var p := PackPrefix(items, isSplitter, width, s);
    assert !isSplitter(item);
    assert p.rows + [p.row] == Chunks(items[..s], width) || (s == 0 && p == Packing([], [])) by {
      if s != 0 {
        PackPrefixAtChunkEnd(items, isSplitter, width, s);
      }
    }
    assert items[s..s + 1] == [item];
  }

  /** A later item of a chunk joins the open row. */
  lemma {:induction false} ChunkGrows<T>(items: seq<T>, isSplitter: T -> bool, width: nat, s: nat, k: nat)
    requires width > 0 && k <= |items|
    requires forall j | 0 <= j < |items| :: !isSplitter(items[j])
    requires s % width == 0 && s + 1 < k <= s + width
    ensures PackPrefix(items, isSplitter, width, k) == Packing(Chunks(items[..s], width), items[s..k])
    decreases k, 1
  {
    var i := k - 1;
    var item := items[i];
    var p := PackPrefix(items, isSplitter, width, i);
    assert !isSplitter(item);
    assert i % width != 0 by {
      DivModUnique(i, width, s / width, i - s);
    }
    PackPrefixChunks(items, isSplitter, width, s, i);
    assert items[s..i] + [item] == items[s..k];
  }

  /** At a chunk boundary `s > 0` the open row is the full chunk before `s`. */
  lemma {:induction false} PackPrefixAtChunkEnd<T>(items: seq<T>, isSplitter: T -> bool, width: nat, s: nat)
    requires width > 0 && s <= |items|
    requires forall j | 0 <= j < |items| :: !isSplitter(items[j])
    requires s % width == 0 && 0 < s
    ensures var p := PackPrefix(items, isSplitter, width, s);
      |p.row| != 0 && p.rows + [p.row] == Chunks(items[..s], width)
    decreases s, 3
  {
    assert s >= width by {
      if s < width { DivModUnique(s, width, 0, s); }
    }
    DivModUnique(s - width, width, s / width - 1, 0);
    PackPrefixChunks(items, isSplitter, width, s - width, s);
    assert items[..s - width] + items[s - width..s] == items[..s];
    ChunksAppend(items[..s - width], items[s - width..s], width);
  }

  /** The multiple of `width` where the chunk holding index `n - 1` starts. */
  lemma LastChunkStart(n: nat, width: nat) returns (s: nat)
    requires width > 0 && n > 0
    ensures s % width == 0 && s < n <= s + width
  {
    var q, r := (n - 1) / width, (n - 1) % width;
    s := q * width;
    assert n - 1 == s + r;
    DivModUnique(s, width, q, 0);
  }

  /** Without splitters the packing is exactly chunking by `width`. */
  lemma LayoutWithoutSplitters<T>(items: seq<T>, isSplitter: T -> bool, width: nat)
    requires width > 0
    requires forall j | 0 <= j < |items| :: !isSplitter(items[j])
    ensures Layout(items, isSplitter, width) == Chunks(items, width)
  {
    var n := |items|;
    if n > 0 {
      var s := LastChunkStart(n, width);
      LayoutEndsWithChunk(items, isSplitter, width, s);
      ChunksEndWith(items, width, s);
    }
  }

  /** The loop ends inside the last chunk, which it closes as the last row. */
  lemma LayoutEndsWithChunk<T>(items: seq<T>, isSplitter: T -> bool, width: nat, s: nat)
    requires width > 0
    requires forall j | 0 <= j < |items| :: !isSplitter(items[j])
    requires s % width == 0 && s < |items| <= s + width
    ensures Layout(items, isSplitter, width) == Chunks(items[..s], width) + [items[s..]]
  {
    var n := |items|;
    var p := PackPrefix(items, isSplitter, width, n);
    assert p == Packing(Chunks(items[..s], width), items[s..n]) by {
      PackPrefixChunks(items, isSplitter, width, s, n);
    }
    assert items[s..n] == items[s..];
    assert |p.row| != 0;
  }

  /** Chunking ends with the items from the last multiple of `width` on. */
  lemma ChunksEndWith<T>(items: seq<T>, width: nat, s: nat)
    requires width > 0
    requires s % width == 0 && s < |items| <= s + width
    ensures Chunks(items, width) == Chunks(items[..s], width) + [items[s..]]
  {
    assert items == items[..s] + items[s..];
    ChunksAppend(items[..s], items[s..], width);
  }

  // ------------------------------------------------ where rows break

  /** Index `m` starts a new row: it is a multiple of `width` or holds a splitter. */
  predicate IsBreak<T>(items: seq<T>, isSplitter: T -> bool, width: nat, m: nat)
    requires width > 0 && m < |items|
  {
    m % width == 0 || isSplitter(items[m])
  }

  /** The loop over a prefix of the items runs as it does over all of them. */
  lemma {:induction false} PackPrefixOfPrefix<T>(items: seq<T>, isSplitter: T -> bool, width: nat, n: nat, k: nat)
    requires width > 0 && k <= n <= |items|
    ensures PackPrefix(items[..n], isSplitter, width, k) == PackPrefix(items, isSplitter, width, k)
  {
    if k > 0 {
      PackPrefixOfPrefix(items, isSplitter, width, n, k - 1);
      assert items[..n][k - 1] == items[k - 1];
    }
  }

  /** At a break the rows closed so far are the keyboard of the items before it. */
  lemma PackAtBreak<T>(items: seq<T>, isSplitter: T -> bool, width: nat, b: nat)
    requires width > 0 && b < |items|
    requires IsBreak(items, isSplitter, width, b)
    ensures PackPrefix(items, isSplitter, width, b + 1)
         == Packing(Layout(items[..b], isSplitter, width), Placed(items[b..b + 1], isSplitter))
  {
    PackPrefixOfPrefix(items, isSplitter, width, b, b);
    assert items[..b][..b] == items[..b];
    assert items[b..b + 1][..0] == [] && items[b..b + 1][0] == items[b];
  }

  /**
   * From a break `b` on, the rows closed before `b` stay in place, and the
   * rows closed after it followed by the open row hold exactly the items
   * placed from `b` on.
   */
  lemma {:induction false} PackKeepsBefore<T>(items: seq<T>, isSplitter: T -> bool, width: nat, b: nat, k: nat)
    requires width > 0 && b < k <= |items|
    requires IsBreak(items, isSplitter, width, b)
    ensures var p := PackPrefix(items, isSplitter, width, k);
      var before := Layout(items[..b], isSplitter, width);
      |before| <= |p.rows| && p.rows[..|before|] == before
      && Flatten(p.rows[|before|..]) + p.row == Placed(items[b..k], isSplitter)
    decreases k
  {
    var before := Layout(items[..b], isSplitter, width);
    if k == b + 1 {
      PackAtBreak(items, isSplitter, width, b);
      var p := PackPrefix(items, isSplitter, width, k);
      assert p.rows[|before|..] == [];
    } else {
      var i := k - 1;
      PackKeepsBefore(items, isSplitter, width, b, i);
      var p := PackPrefix(items, isSplitter, width, i);
      var item := items[i];
      var tailRows := p.rows[|before|..];
      assert items[b..k][..|items[b..k]| - 1] == items[b..i] && items[b..k][|items[b..k]| - 1] == item;
      assert Placed(items[b..k], isSplitter) == Placed(items[b..i], isSplitter) + (if isSplitter(item) then [] else [item]);
      if (i % width == 0 || isSplitter(item)) && |p.row| != 0 {
        assert (p.rows + [p.row])[..|before|] == before;
        assert (p.rows + [p.row])[|before|..] == tailRows + [p.row];
        FlattenSnoc(tailRows, p.row);
      }
    }
  }

  /**
   * No row straddles a break: the keyboard of the items before a multiple of
   * `width` or a splitter comes first, unchanged, and the rows after it hold
   * exactly the items placed from there on.
   */
  lemma LayoutSplitsAtBreak<T>(items: seq<T>, isSplitter: T -> bool, width: nat, b: nat)
    requires width > 0 && b < |items|
    requires IsBreak(items, isSplitter, width, b)
    ensures var rows := Layout(items, isSplitter, width);
      var before := Layout(items[..b], isSplitter, width);
      |before| <= |rows| && rows[..|before|] == before
      && Flatten(rows[|before|..]) == Placed(items[b..], isSplitter)
  {
    var n := |items|;
    PackKeepsBefore(items, isSplitter, width, b, n);
    var p := PackPrefix(items, isSplitter, width, n);
    var before := Layout(items[..b], isSplitter, width);
    assert items[b..n] == items[b..];
    if |p.row| != 0 {
      assert (p.rows + [p.row])[..|before|] == before;
      assert (p.rows + [p.row])[|before|..] == p.rows[|before|..] + [p.row];
      FlattenSnoc(p.rows[|before|..], p.row);
    }
  }

  /** With no break after `b`, the loop keeps adding the items from `b` on to one open row. */
  lemma {:induction false} PackAfterLastBreak<T>(items: seq<T>, isSplitter: T -> bool, width: nat, b: nat, k: nat)
    requires width > 0 && b < k <= |items|
    requires IsBreak(items, isSplitter, width, b)
    requires forall m | b < m < k :: !IsBreak(items, isSplitter, width, m)
    ensures PackPrefix(items, isSplitter, width, k)
         == Packing(Layout(items[..b], isSplitter, width), Placed(items[b..k], isSplitter))
    decreases k
  {
    if k == b + 1 {
      PackAtBreak(items, isSplitter, width, b);
    } else {
      var i := k - 1;
      PackAfterLastBreak(items, isSplitter, width, b, i);
      assert !IsBreak(items, isSplitter, width, i);
      assert items[b..k][..|items[b..k]| - 1] == items[b..i] && items[b..k][|items[b..k]| - 1] == items[i];
    }
  }

  /**
   * The last row: if `b` is the last break, the keyboard is the keyboard of
   * the items before `b` followed by the items placed from `b` on, as one
   * row when there are any.
   */
  lemma LayoutLastRow<T>(items: seq<T>, isSplitter: T -> bool, width: nat, b: nat)
    requires width > 0 && b < |items|
    requires IsBreak(items, isSplitter, width, b)
    requires forall m | b < m < |items| :: !IsBreak(items, isSplitter, width, m)
    ensures var tail := Placed(items[b..], isSplitter);
      Layout(items, isSplitter, width) == Layout(items[..b], isSplitter, width) + (if |tail| != 0 then [tail] else [])
  {
    PackAfterLastBreak(items, isSplitter, width, b, |items|);
    assert items[b..|items|] == items[b..];
  }

  /** The last break at or before index `k`; index 0 always is one. */
  function LastBreak<T>(items: seq<T>, isSplitter: T -> bool, width: nat, k: nat): (b: nat)
    requires width > 0 && k < |items|
    ensures b <= k && IsBreak(items, isSplitter, width, b)
    ensures forall m | b < m <= k :: !IsBreak(items, isSplitter, width, m)
  {
    if IsBreak(items, isSplitter, width, k) then k else LastBreak(items, isSplitter, width, k - 1)
  }

  /**
   * Reference keyboard by row breaks: each row runs from one break to the
   * next with its splitter left out, and a row left empty is not emitted.
   */
  function RowsByBreaks<T>(items: seq<T>, isSplitter: T -> bool, width: nat): seq<seq<T>>
    requires width > 0
    decreases |items|
  {
    if |items| == 0 then []
    else
      var b := LastBreak(items, isSplitter, width, |items| - 1);
      var tail := Placed(items[b..], isSplitter);
      RowsByBreaks(items[..b], isSplitter, width) + (if |tail| != 0 then [tail] else [])
  }

  /** The packing loop builds exactly the rows between breaks. */
  lemma {:induction false} LayoutByBreaks<T>(items: seq<T>, isSplitter: T -> bool, width: nat)
    requires width > 0
    ensures Layout(items, isSplitter, width) == RowsByBreaks(items, isSplitter, width)
    decreases |items|
  {
    if |items| > 0 {
      var b := LastBreak(items, isSplitter, width, |items| - 1);
      LayoutLastRow(items, isSplitter, width, b);
      var pre := items[..b];
      LayoutByBreaks(pre, isSplitter, width);
    }
  }

  // ------------------------------------------------ worked examples

  predicate IsSplitterText(s: string) { s == RowSplitterButton }

  /** Five buttons, two per row: rows of 2, 2 and 1. */
  lemma FiveAtWidthTwo()
    ensures Layout(["A", "B", "C", "D", "E"], IsSplitterText, 2) == [["A", "B"], ["C", "D"], ["E"]]
  {
    var items := ["A", "B", "C", "D", "E"];
    assert !IsSplitterText("A") && !IsSplitterText("B");
    assert !IsSplitterText("C") && !IsSplitterText("D") && !IsSplitterText("E");
    assert PackPrefix(items, IsSplitterText, 2, 1) == Packing([], ["A"]);
    assert PackPrefix(items, IsSplitterText, 2, 2) == Packing([], ["A", "B"]);
    assert PackPrefix(items, IsSplitterText, 2, 3) == Packing([["A", "B"]], ["C"]);
    assert PackPrefix(items, IsSplitterText, 2, 4) == Packing([["A", "B"]], ["C", "D"]);
    assert PackPrefix(items, IsSplitterText, 2, 5) == Packing([["A", "B"], ["C", "D"]], ["E"]);
  }

  /** A splitter after the second of five buttons: rows of 2, 1 and 2 buttons. */
  lemma SplitterAfterSecond()
    ensures Layout(["A", "B", RowSplitterButton, "C", "D", "E"], IsSplitterText, 2) == [["A", "B"], ["C"], ["D", "E"]]
  {
    var items := ["A", "B", RowSplitterButton, "C", "D", "E"];
    assert !IsSplitterText("A") && !IsSplitterText("B");
    assert !IsSplitterText("C") && !IsSplitterText("D") && !IsSplitterText("E");
    assert PackPrefix(items, IsSplitterText, 2, 1) == Packing([], ["A"]);
    assert PackPrefix(items, IsSplitterText, 2, 2) == Packing([], ["A", "B"]);
    assert PackPrefix(items, IsSplitterText, 2, 3) == Packing([["A", "B"]], []);
    assert PackPrefix(items, IsSplitterText, 2, 4) == Packing([["A", "B"]], ["C"]);
    assert PackPrefix(items, IsSplitterText, 2, 5) == Packing([["A", "B"], ["C"]], ["D"]);
    assert PackPrefix(items, IsSplitterText, 2, 6) == Packing([["A", "B"], ["C"]], ["D", "E"]);
  }
}
