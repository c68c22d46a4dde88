/**
 * The window's type filter: `DrawFilterToggle` flips a category's bit by
 * XOR when its toggle button changes state, and the header draws six such
 * toggles one after the other.
 */
module TypeFilter {
  import opened LogTypes

  /** `DrawFilterToggle`: flips the category's bit by XOR when the toggle's result differs from the mask. */
  function FilterToggle(filter: Mask, logType: LogType, toggleResult: bool): Mask
  {
    if toggleResult != Enabled(filter, logType) then filter ^ Bit(logType) else filter
  }

  /** After a toggle the category is enabled exactly as the toggle reports. */
  lemma FilterToggleEnabled(filter: Mask, logType: LogType, toggleResult: bool)
    ensures Enabled(FilterToggle(filter, logType, toggleResult), logType) == toggleResult
  {
  }

  /** A toggle keeps every bit but the category's own. */
  lemma FilterToggleKeepsBits(filter: Mask, logType: LogType, toggleResult: bool)
    ensures FilterToggle(filter, logType, toggleResult) & !Bit(logType) == filter & !Bit(logType)
  {
    if toggleResult != Enabled(filter, logType) {
      XorKeepsOthers(filter, Bit(logType));
    }
  }

  /** XOR with `b` keeps every bit outside `b`. */
  lemma XorKeepsOthers(f: Mask, b: Mask)
    ensures (f ^ b) & !b == f & !b
  {
  }

  /** Two masks that agree outside `b` agree on every bit `c` that is disjoint from `b`. */
  lemma SameOutsideAgreesOn(r: Mask, f: Mask, b: Mask, c: Mask)
    requires r & !b == f & !b
    requires c & b == 0
    ensures r & c == f & c
  {
  }

  /** A toggle leaves every other category as it was. */
  lemma FilterToggleKeepsOthers(filter: Mask, logType: LogType, toggleResult: bool, other: LogType)
    requires other != logType
    ensures Enabled(FilterToggle(filter, logType, toggleResult), other) == Enabled(filter, other)
  {
    var r := FilterToggle(filter, logType, toggleResult);
    FilterToggleKeepsBits(filter, logType, toggleResult);
    BitsDistinct(other, logType);
    SameOutsideAgreesOn(r, filter, Bit(logType), Bit(other));
    EnabledSame(r, filter, other);
  }

  /** Toggling a category and then setting it back restores the mask. */
  lemma FilterToggleTwice(filter: Mask, logType: LogType, toggleResult: bool)
    ensures FilterToggle(FilterToggle(filter, logType, toggleResult), logType, Enabled(filter, logType)) == filter
  {
    if toggleResult == Enabled(filter, logType) {
      ToggleTwiceUnchanged(filter, logType, toggleResult);
    } else {
      ToggleTwiceFlipped(filter, logType, toggleResult);
    }
  }

  /** A toggle that matches the mask changes nothing, and neither does setting it back. */
  lemma ToggleTwiceUnchanged(filter: Mask, logType: LogType, toggleResult: bool)
    requires toggleResult == Enabled(filter, logType)
    ensures FilterToggle(FilterToggle(filter, logType, toggleResult), logType, Enabled(filter, logType)) == filter
  {
  }

  /** A toggle that flips the category is undone by flipping it back. */
  lemma ToggleTwiceFlipped(filter: Mask, logType: LogType, toggleResult: bool)
    requires toggleResult != Enabled(filter, logType)
    ensures FilterToggle(FilterToggle(filter, logType, toggleResult), logType, Enabled(filter, logType)) == filter
  {
    var once := FilterToggle(filter, logType, toggleResult);
    FilterToggleFlips(filter, logType, toggleResult);
    FilterToggleEnabled(filter, logType, toggleResult);
    FilterToggleFlips(once, logType, Enabled(filter, logType));
    XorTwice(filter, Bit(logType));
  }

  /** A toggle whose result differs from the mask XORs the category's bit. */
  lemma FilterToggleFlips(filter: Mask, logType: LogType, toggleResult: bool)
    ensures toggleResult != Enabled(filter, logType) ==> FilterToggle(filter, logType, toggleResult) == filter ^ Bit(logType)
  {
  }

  /** XOR with the same bits twice gives the mask back. */
  lemma XorTwice(f: Mask, b: Mask)
    ensures f ^ b ^ b == f
  {
  }

  /** `DrawToggleButton`: a pressed toggle reports the opposite of its state. */
  function ToggleResult(filter: Mask, logType: LogType, pressed: set<LogType>): (r: bool)
    ensures r != Enabled(filter, logType) <==> logType in pressed
  {
    var isChecked := Enabled(filter, logType);
    if logType in pressed then !isChecked else isChecked
  }

  /** The order in which the header draws its six type toggles. */
  const HeaderToggleOrder := [PlayLog, UnityLog, UnityWarning, UnityError, UnityAssert, Exception]

  /** The toggles of `order`, drawn one after the other, each seeing the mask the previous one left; no bit outside `all` changes. */
  function ApplyTypeToggles(filter: Mask, order: seq<LogType>, pressed: set<LogType>): (r: Mask)
    ensures r & !All == filter & !All
    decreases |order|
  {
    if |order| == 0 then filter
    else
      ApplyTypeToggles(DrawToggle(filter, order[0], pressed), order[1..], pressed)
  }

  /**
   * One toggle of the header: the mask `DrawFilterToggle` returns for
   * `logType`. A pressed toggle flips its category; no bit outside `all` changes.
   */
  function DrawToggle(filter: Mask, logType: LogType, pressed: set<LogType>): (r: Mask)
    ensures Enabled(r, logType) == (Enabled(filter, logType) != (logType in pressed))
    ensures r & !All == filter & !All
  {
    FilterToggleEnabled(filter, logType, ToggleResult(filter, logType, pressed));
    FilterToggleKeepsOutsideAll(filter, logType, ToggleResult(filter, logType, pressed));
    FilterToggle(filter, logType, ToggleResult(filter, logType, pressed))
  }

  /** A toggle never touches a bit outside the `all` mask. */
  lemma FilterToggleKeepsOutsideAll(filter: Mask, u: LogType, toggleResult: bool)
    ensures FilterToggle(filter, u, toggleResult) & !All == filter & !All
  {
    FilterToggleKeepsBits(filter, u, toggleResult);
    BitInsideAll(u);
    SameOutsideWider(FilterToggle(filter, u, toggleResult), filter, Bit(u), All);
  }

  /** Each of the six lowest bits lies inside the `all` mask. */
  lemma BitInsideAll(t: LogType)
    ensures Bit(t) & !All == 0
  {
    LowBitInsideAll(Bit(t));
  }

  /** A single low bit has nothing outside `all`. */
  lemma LowBitInsideAll(b: Mask)
    requires LowBit(b)
    ensures b & !All == 0
  {
    AllHasEveryBit();
  }

  /** Two masks that agree outside `b` agree outside any mask `a` that contains `b`. */
  lemma SameOutsideWider(r: Mask, f: Mask, b: Mask, a: Mask)
    ensures r & !b == f & !b && b & !a == 0 ==> r & !a == f & !a
  {
  }

  /** One toggle of the header changes its own category when pressed, and no other. */
  lemma ToggleStep(filter: Mask, u: LogType, pressed: set<LogType>, t: LogType)
    ensures Enabled(DrawToggle(filter, u, pressed), t) == (Enabled(filter, t) != (t == u && u in pressed))
  {
    DrawToggleKeepsOthers(filter, u, pressed, t);
  }

  /** A drawn toggle leaves every other category as it was. */
  lemma DrawToggleKeepsOthers(filter: Mask, u: LogType, pressed: set<LogType>, t: LogType)
    ensures t != u ==> Enabled(DrawToggle(filter, u, pressed), t) == Enabled(filter, t)
  {
    if t != u {
      FilterToggleKeepsOthers(filter, u, ToggleResult(filter, u, pressed), t);
    }
  }

  /** Drawing the first toggle of `order`, then the others. */
  lemma ApplyTypeTogglesStep(filter: Mask, order: seq<LogType>, pressed: set<LogType>)
    requires |order| > 0
    ensures ApplyTypeToggles(filter, order, pressed)
         == ApplyTypeToggles(FilterToggle(filter, order[0], ToggleResult(filter, order[0], pressed)), order[1..], pressed)
  {
  }

  /** No category occurs twice in `order`. */
  predicate Distinct(order: seq<LogType>) {
    forall i, j :: 0 <= i < j < |order| ==> order[i] != order[j]
  }

  /** Dropping the first of distinct categories leaves distinct categories, none of them the first. */
  lemma DistinctTail(order: seq<LogType>, t: LogType)
    requires |order| > 0 && Distinct(order)
    ensures Distinct(order[1..]) && order[0] !in order[1..]
    ensures t in order <==> t == order[0] || t in order[1..]
  {
    assert order == [order[0]] + order[1..];
    forall j | 0 <= j < |order[1..]|
      ensures order[1..][j] != order[0]
    {
      assert order[1..][j] == order[j + 1];
    }
  }

  /** Drawing toggles for distinct categories changes exactly the pressed ones among them. */
  lemma {:induction false} ApplyTypeTogglesFlipsPressed(filter: Mask, order: seq<LogType>, pressed: set<LogType>, t: LogType)
    requires Distinct(order)
    ensures Enabled(ApplyTypeToggles(filter, order, pressed), t) == (Enabled(filter, t) != (t in order && t in pressed))
    decreases |order|
  {
    if |order| > 0 {
      DistinctTail(order, t);
      ToggleStep(filter, order[0], pressed, t);
      ApplyTypeTogglesFlipsPressed(DrawToggle(filter, order[0], pressed), order[1..], pressed, t);
    }
  }

  /** The header's toggles flip exactly the pressed categories and no bit outside `all`. */
  lemma HeaderTogglesFlipPressed(filter: Mask, pressed: set<LogType>)
    ensures forall t :: Enabled(ApplyTypeToggles(filter, HeaderToggleOrder, pressed), t) == (Enabled(filter, t) != (t in pressed))
    ensures ApplyTypeToggles(filter, HeaderToggleOrder, pressed) & !All == filter & !All
  {
    forall t
      ensures Enabled(ApplyTypeToggles(filter, HeaderToggleOrder, pressed), t) == (Enabled(filter, t) != (t in pressed))
    {
      HeaderOrderCovers(t);
      ApplyTypeTogglesFlipsPressed(filter, HeaderToggleOrder, pressed, t);
    }
  }

  /** The header draws every category's toggle, each once. */
  lemma HeaderOrderCovers(t: LogType)
    ensures Distinct(HeaderToggleOrder) && t in HeaderToggleOrder
  {
    var order := HeaderToggleOrder;
    match t
    case PlayLog => assert order[0] == t;
    case UnityLog => assert order[1] == t;
    case UnityWarning => assert order[2] == t;
    case UnityError => assert order[3] == t;
    case UnityAssert => assert order[4] == t;
    case Exception => assert order[5] == t;
  }
}
