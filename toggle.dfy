// The toggle button's click handler: the box's `hidden` class is flipped, and
// the button's aria-expanded attribute is set to whether the box is now shown.

module ToggleBox {

  /** String(b) for a boolean. */
  function BoolText(b: bool): (t: string)
    ensures t == "true" <==> b
    ensures t == "false" <==> !b
  {
    if b then "true" else "false"
  }

  /** The box and its button, as far as the handler touches them. */
  class Toggle {
    /** Whether the box carries the `hidden` class. */
    var hidden: bool
    /** The button's aria-expanded attribute. */
    var ariaExpanded: string

    /** The attribute tells the truth about the box. */
    ghost predicate Consistent()
      reads this
    {
      ariaExpanded == BoolText(!hidden)
    }

    /** The page's initial markup decides both; they need not agree. */
    constructor (hidden0: bool, ariaExpanded0: string)
      ensures hidden == hidden0 && ariaExpanded == ariaExpanded0
    {
      hidden := hidden0;
      ariaExpanded := ariaExpanded0;
    }

    /** One click: `hidden` is flipped and aria-expanded becomes "true"
        exactly when the box is now shown, from any prior state. `focus` says
        whether the handler focused the box (only when it became visible). */
    method Click() returns (focus: bool)
      modifies this
      ensures hidden == !old(hidden)
      ensures ariaExpanded == (if hidden then "false" else "true")
      ensures Consistent()
      ensures focus <==> !hidden
    {
      hidden := !hidden;
      ariaExpanded := BoolText(!hidden);
      focus := !hidden;
    }
  }

  /** Two clicks restore the box; they restore the attribute as well whenever
      it agreed with the box beforehand, which it does after any click. */
  method ClickTwice(t: Toggle)
    modifies t
    ensures t.hidden == old(t.hidden)
    ensures old(t.Consistent()) ==> t.ariaExpanded == old(t.ariaExpanded)
    ensures t.Consistent()
  {
    var _ := t.Click();
    var _ := t.Click();
  }
}
