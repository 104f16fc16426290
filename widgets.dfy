/**
 The part of a Qt list widget (MyListWidget, a QListWidget) that the GUI's
 closures use: an ordered list of rows, each with its text, its selection flag
 and its hidden flag, with addItem, takeItem, item(i).setText,
 item(i).setHidden and clear.
 */
module Widgets {

  /** One row of a list widget (a QListWidgetItem). */
  datatype Item = Item(text: string, selected: bool, hidden: bool)

  /** The texts of the rows, in order. */
  function TextsOf(items: seq<Item>): seq<string> {
    seq(|items|, i requires 0 <= i < |items| => items[i].text)
  }

  /** Rows as addItem creates them: neither selected nor hidden. */
  function FreshItems(texts: seq<string>): seq<Item> {
    seq(|texts|, i requires 0 <= i < |texts| => Item(texts[i], false, false))
  }

  /** The texts of freshly added rows are the texts they were added with. */
  lemma TextsOfFresh(texts: seq<string>)
    ensures TextsOf(FreshItems(texts)) == texts
  {
  }

  /** Adding one more text adds one more fresh row. */
  lemma FreshItemsSnoc(texts: seq<string>, t: string)
    ensures FreshItems(texts + [t]) == FreshItems(texts) + [Item(t, false, false)]
  {
  }

  /** Appending the fresh row for texts[j] after the rows for texts[..j]
      gives the rows for texts[..j + 1]. */
  lemma AppendFresh(prefix: seq<Item>, texts: seq<string>, j: nat)
    requires j < |texts|
    ensures prefix + FreshItems(texts[..j]) + [Item(texts[j], false, false)]
         == prefix + FreshItems(texts[..j + 1])
  {
    assert texts[..j + 1] == texts[..j] + [texts[j]];
    FreshItemsSnoc(texts[..j], texts[j]);
  }

  /** The number of selected rows. */
  function SelectedCount(items: seq<Item>): nat {
    if items == [] then 0 else (if items[0].selected then 1 else 0) + SelectedCount(items[1..])
  }

  /** The rows that are not selected, in their original order. */
  function Unselected(items: seq<Item>): seq<Item> {
    if items == [] then []
    else (if items[0].selected then [] else [items[0]]) + Unselected(items[1..])
  }

  /** Deleting the selected rows leaves as many rows as were unselected, and
      none of them is selected. */
  lemma {:induction false} UnselectedCount(items: seq<Item>)
    ensures |Unselected(items)| == |items| - SelectedCount(items)
    ensures forall k :: 0 <= k < |Unselected(items)| ==> !Unselected(items)[k].selected
  {
    if items != [] {
      UnselectedCount(items[1..]);
    }
  }

  /** The positions, counted from base, of the rows that are not selected, in increasing order. */
  function KeptPositions(items: seq<Item>, base: nat): (r: seq<nat>)
    ensures |r| == |Unselected(items)|
  {
    if items == [] then []
    else (if items[0].selected then [] else [base]) + KeptPositions(items[1..], base + 1)
  }

  /** Every kept position lies within the list. */
  lemma {:induction false} KeptPositionsInRange(items: seq<Item>, base: nat, k: nat)
    requires k < |KeptPositions(items, base)|
    ensures base <= KeptPositions(items, base)[k] < base + |items|
  {
    if items[0].selected {
      KeptPositionsInRange(items[1..], base + 1, k);
    } else if k > 0 {
      KeptPositionsInRange(items[1..], base + 1, k - 1);
    }
  }

  /** Every kept position names an unselected row. */
  lemma {:induction false} KeptPositionsUnselected(items: seq<Item>, base: nat, k: nat)
    requires k < |KeptPositions(items, base)|
    ensures base <= KeptPositions(items, base)[k] < base + |items|
      && !items[KeptPositions(items, base)[k] - base].selected
  {
    KeptPositionsInRange(items, base, k);
    if items[0].selected {
      KeptPositionsUnselected(items[1..], base + 1, k);
    } else if k > 0 {
      KeptPositionsUnselected(items[1..], base + 1, k - 1);
    }
  }

  /** Kept positions strictly increase. */
  lemma {:induction false} KeptPositionsIncreasing(items: seq<Item>, base: nat, k: nat, l: nat)
    requires k < l < |KeptPositions(items, base)|
    ensures KeptPositions(items, base)[k] < KeptPositions(items, base)[l]
  {
    if items[0].selected {
      KeptPositionsIncreasing(items[1..], base + 1, k, l);
    } else if k > 0 {
      KeptPositionsIncreasing(items[1..], base + 1, k - 1, l - 1);
    } else {
      KeptPositionsInRange(items[1..], base + 1, l - 1);
    }
  }

  /** Every unselected row has its position kept. */
  lemma {:induction false} KeptPositionsComplete(items: seq<Item>, base: nat, i: nat)
    requires i < |items| && !items[i].selected
    ensures base + i in KeptPositions(items, base)
  {
    if i > 0 {
      KeptPositionsComplete(items[1..], base + 1, i - 1);
    }
  }

  /** Deleting the selected rows leaves exactly the unselected rows, in order:
      the k-th survivor is the row at the k-th kept position. With the three
      lemmas above this says that no selected row survives, every unselected
      row does, and their relative order is kept. */
  lemma {:induction false} UnselectedAt(items: seq<Item>, base: nat, k: nat)
    requires k < |Unselected(items)|
    ensures base <= KeptPositions(items, base)[k] < base + |items|
      && Unselected(items)[k] == items[KeptPositions(items, base)[k] - base]
  {
    KeptPositionsInRange(items, base, k);
    if items[0].selected {
      UnselectedAt(items[1..], base + 1, k);
    } else if k > 0 {
      UnselectedAt(items[1..], base + 1, k - 1);
    }
  }

  /** A list-widget: its rows, changed in place by the Qt calls below. */
  class ListWidget {
    var items: seq<Item>

    constructor ()
      ensures items == []
    {
      items := [];
    }

    /** The texts of all rows, in order. */
    function Texts(): seq<string>
      reads this
    {
      TextsOf(items)
    }

    /** addItem(text): a new row at the end, not selected and not hidden. */
    method AddItem(text: string)
      modifies this
      ensures items == old(items) + [Item(text, false, false)]
    {
      items := items + [Item(text, false, false)];
    }

    /** takeItem(i): removes row i; the rows behind it move up by one. */
    method TakeItem(i: nat)
      requires i < |items|
      modifies this
      ensures items == old(items)[..i] + old(items)[i + 1..]
    {
      items := items[..i] + items[i + 1..];
    }

    /** item(i).setText(text) */
    method SetText(i: nat, text: string)
      requires i < |items|
      modifies this
      ensures items == old(items)[i := old(items)[i].(text := text)]
    {
      items := items[i := items[i].(text := text)];
    }

    /** item(i).setHidden(h) */
    method SetHidden(i: nat, h: bool)
      requires i < |items|
      modifies this
      ensures items == old(items)[i := old(items)[i].(hidden := h)]
    {
      items := items[i := items[i].(hidden := h)];
    }

    /** clear() */
    method Clear()
      modifies this
      ensures items == []
    {
      items := [];
    }

    /** The deletion loop shared by the contact, message and schedule lists:
        walk the rows from the last to the first and take every selected one. */
    method TakeSelected()
      modifies this
      ensures items == Unselected(old(items))
    {
      var i := |items|;
      while i > 0
        invariant 0 <= i <= |old(items)|
        invariant items == old(items)[..i] + Unselected(old(items)[i..])
      {
        i := i - 1;
        ghost var before := old(items);
        assert before[i..] == [before[i]] + before[i + 1..];
        assert items[i] == before[i];
        if items[i].selected {
          TakeItem(i);
        }
        assert before[..i + 1] == before[..i] + [before[i]];
      }
    }
  }
}
